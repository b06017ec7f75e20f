/** Assembling the aggregate statement, clause by clause, against the text with its
    values in place. */
module AggregateBuild {
  import opened Wrappers
  import opened SqlText
  import opened Filters
  import opened FilterBuild
  import opened AggregateExpr
  import opened Aggregate

  // ---- the statement with its values in place ---------------------------------------------

  function InlineOperand(model: Model, exprs: Exprs, name: string): Text
    requires KnownOperand(model, exprs, name)
  {
    if name in exprs then InlineExpr(model, exprs[name]) else Column(model.table, ResolveFilterField(model, name).value.dbName)
  }

  function CallHead(op: AggregateOp): Text {
    match op
    case Count => [Raw("COUNT"), Raw("(")]
    case CountDistinct => [Raw("COUNT"), Raw("("), Raw("DISTINCT")]
    case Sum => [Raw("SUM"), Raw("(")]
    case Avg => [Raw("AVG"), Raw("(")]
    case Min => [Raw("MIN"), Raw("(")]
    case Max => [Raw("MAX"), Raw("(")]
    case UnknownOp(name) => [Raw(name), Raw("(")]
  }

  function InlineCall(model: Model, exprs: Exprs, f: AggregateField): Text
    requires FieldCheck(model, exprs, f).None?
  {
    if f.op.Count? && f.field == "" then [Raw("COUNT(*)")]
    else CallHead(f.op) + InlineOperand(model, exprs, f.field) + [Raw(")")]
  }

  predicate AllFieldsKnown(model: Model, exprs: Exprs, fs: seq<AggregateField>) {
    forall i :: 0 <= i < |fs| ==> FieldCheck(model, exprs, fs[i]).None?
  }

  function InlineItem(model: Model, exprs: Exprs, f: AggregateField): Text
    requires FieldCheck(model, exprs, f).None?
  {
    InlineCall(model, exprs, f) + [Raw("AS"), Ident(Alias(model, exprs, f))]
  }

  function InlineItems(model: Model, exprs: Exprs, fs: seq<AggregateField>): (r: seq<Text>)
    requires AllFieldsKnown(model, exprs, fs)
    ensures |r| == |fs|
  {
    if fs == [] then [] else InlineItems(model, exprs, fs[..|fs| - 1]) + [InlineItem(model, exprs, fs[|fs| - 1])]
  }

  function GroupColumns(model: Model, cols: seq<string>): seq<Text> {
    if cols == [] then [] else GroupColumns(model, cols[..|cols| - 1]) + [Column(model.table, cols[|cols| - 1])]
  }

  /** The selected field an alias names. */
  function FieldFor(model: Model, exprs: Exprs, fs: seq<AggregateField>, alias: string): (f: AggregateField)
    requires AliasTaken(model, exprs, fs, alias)
    ensures f in fs && Alias(model, exprs, f) == alias
  {
    if Alias(model, exprs, fs[|fs| - 1]) == alias then fs[|fs| - 1] else FieldFor(model, exprs, fs[..|fs| - 1], alias)
  }

  function SqlOp(op: Op): string {
    match op
    case Neq => "<>" case Gt => ">" case Gte => ">=" case Lt => "<" case Lte => "<=" case _ => "="
  }

  ghost predicate HavingKnown(model: Model, exprs: Exprs, select: seq<AggregateField>, hs: seq<HavingClause>) {
    forall i :: 0 <= i < |hs| ==> AliasTaken(model, exprs, select, hs[i].alias)
  }

  /** HAVING repeats the aggregate the alias names; each repetition has placeholders
      of its own. */
  function InlineHaving(model: Model, exprs: Exprs, select: seq<AggregateField>, h: HavingClause): Text
    requires AllFieldsKnown(model, exprs, select) && AliasTaken(model, exprs, select, h.alias)
  {
    InlineCall(model, exprs, FieldFor(model, exprs, select, h.alias)) + [Raw(SqlOp(h.op)), Bound(h.value)]
  }

  ghost function InlineHavings(model: Model, exprs: Exprs, select: seq<AggregateField>, hs: seq<HavingClause>): (r: seq<Text>)
    requires AllFieldsKnown(model, exprs, select) && HavingKnown(model, exprs, select, hs)
    ensures |r| == |hs|
  {
    if hs == [] then []
    else InlineHavings(model, exprs, select, hs[..|hs| - 1]) + [InlineHaving(model, exprs, select, hs[|hs| - 1])]
  }

  function OrderPart(model: Model, exprs: Exprs, select: seq<AggregateField>, tidy: string -> string, s: SortExpr): Text {
    (if AliasTaken(model, exprs, select, s.dbName) then [Ident(s.dbName)] else Column(model.table, s.dbName))
    + [Raw(match Direction(tidy, s.direction) case Some(d) => d case None => "ASC")]
  }

  function OrderParts(model: Model, exprs: Exprs, select: seq<AggregateField>, tidy: string -> string, os: seq<SortExpr>): seq<Text> {
    if os == [] then []
    else OrderParts(model, exprs, select, tidy, os[..|os| - 1]) + [OrderPart(model, exprs, select, tidy, os[|os| - 1])]
  }

  function Prefaced(words: string, body: Text): Text {
    if body == [] then [] else [Raw(words)] + body
  }

  function LimitText(limit: int): Text {
    if limit > 0 then [Raw("LIMIT"), Raw(Itoa(limit))] else []
  }

  ghost predicate Buildable(model: Model, exprs: Exprs, q: AggregateQuery) {
    AllFieldsKnown(model, exprs, q.select) && HavingKnown(model, exprs, q.select, q.having)
  }

  ghost function InlineStatement(host: Host, model: Model, exprs: Exprs, q: AggregateQuery, tidy: string -> string, d: Driver): Text
    requires Buildable(model, exprs, q)
  {
    [Raw("SELECT")] + Join(InlineItems(model, exprs, q.select) + GroupColumns(model, q.groupBy), COMMA)
    + [Raw("FROM"), Ident(model.table)]
    + Prefaced("WHERE", InlineFilters(host, model, q.filters, d))
    + Prefaced("GROUP BY", Join(GroupColumns(model, q.groupBy), COMMA))
    + Prefaced("HAVING", Join(InlineHavings(model, exprs, q.select, q.having), AND))
    + Prefaced("ORDER BY", Join(OrderParts(model, exprs, q.select, tidy, q.orderBy), COMMA))
    + LimitText(q.limit)
  }

  // ---- one aggregate ------------------------------------------------------------------------

  method AggregateOperand(meta: ModelMeta, name: string, p: Binder) returns (t: Option<Text>)
    requires meta.Valid()
    modifies p
    ensures t.Some? <==> KnownOperand(meta.model, meta.aggExprs, name)
    ensures t.Some? ==> Renders(p.driver, old(p.args), p.args, t.value, InlineOperand(meta.model, meta.aggExprs, name))
  {
    hide Renders;
    if name in meta.aggExprs {
      t := RenderAggExpr(meta.model, meta.aggExprs[name], p);
      return;
    }
    var f := ResolveFilterField(meta.model, name);
    if f.None? { return None; }
    var col := Column(meta.model.table, f.value.dbName);
    ColumnIsPlain(meta.model.table, f.value.dbName);
    PlainRenders(p.driver, p.args, col);
    t := Some(col);
  }

  method AggregateSelectSQL(meta: ModelMeta, f: AggregateField, p: Binder) returns (r: Result<(Text, string), AggregateError>)
    requires meta.Valid()
    modifies p
    ensures r.Ok? <==> FieldCheck(meta.model, meta.aggExprs, f).None?
    ensures r.Err? ==> Some(r.error) == FieldCheck(meta.model, meta.aggExprs, f)
    ensures r.Ok? ==> r.value.1 == Alias(meta.model, meta.aggExprs, f)
    ensures r.Ok? ==> Renders(p.driver, old(p.args), p.args, r.value.0, InlineCall(meta.model, meta.aggExprs, f))
  {
    hide Renders, ResolveFilterField;
    ghost var a := p.args;
    if f.op.Count? && f.field == "" {
      PlainRenders(p.driver, a, [Raw("COUNT(*)")]);
      return Ok(([Raw("COUNT(*)")], if f.alias == "" then "count" else f.alias));
    }
    if f.field == "" { return Err(NeedsField); }
    var operand := AggregateOperand(meta, f.field, p);
    if operand.None? { return Err(UnknownColumn); }
    if f.op.UnknownOp? { return Err(NotAnAggregate); }
    ghost var inline := InlineOperand(meta.model, meta.aggExprs, f.field);
    var head, close: Text := CallHead(f.op), [Raw(")")];
    Prefixed(p.driver, a, p.args, head, operand.value, inline);
    Suffixed(p.driver, a, p.args, head + operand.value, head + inline, close);
    r := Ok((head + operand.value + close, Alias(meta.model, meta.aggExprs, f)));
  }

  // ---- the SELECT list ------------------------------------------------------------------------

  lemma SelectErrorAt(model: Model, exprs: Exprs, select: seq<AggregateField>, k: nat)
    requires k < |select| && AllFieldsKnown(model, exprs, select[..k]) && AliasesDistinct(model, exprs, select[..k])
    requires SelectCheck(model, exprs, select, k).Some?
    ensures FirstError(SelectChecks(model, exprs, select)) == SelectCheck(model, exprs, select, k)
  {
    hide FieldCheck, Alias, FirstError;
    var es := SelectChecks(model, exprs, select);
    forall i | 0 <= i < k ensures es[i].None? {
      assert select[..k][i] == select[i];
      assert FieldCheck(model, exprs, select[..k][i]).None?;
      forall j | 0 <= j < i ensures Alias(model, exprs, select[..i][j]) != Alias(model, exprs, select[i]) {
        assert select[..i][j] == select[..k][j];
      }
    }
    FirstErrorAt(es, k);
  }

  lemma SelectSnoc(model: Model, exprs: Exprs, select: seq<AggregateField>, k: nat)
    requires k < |select| && AllFieldsKnown(model, exprs, select[..k]) && AliasesDistinct(model, exprs, select[..k])
    requires SelectCheck(model, exprs, select, k).None?
    ensures AllFieldsKnown(model, exprs, select[..k + 1]) && AliasesDistinct(model, exprs, select[..k + 1])
    ensures InlineItems(model, exprs, select[..k + 1]) == InlineItems(model, exprs, select[..k]) + [InlineItem(model, exprs, select[k])]
  {
    hide FieldCheck, Alias, InlineItem;
    var xs, ys := select[..k], select[..k + 1];
    assert ys[..k] == xs && ys[k] == select[k];
    forall i | 0 <= i < |ys| ensures FieldCheck(model, exprs, ys[i]).None? {
      if i < k { assert ys[i] == xs[i]; }
    }
    forall i, j | 0 <= i < j < |ys| ensures Alias(model, exprs, ys[i]) != Alias(model, exprs, ys[j]) {
      assert ys[i] == xs[i];
      if j < k { assert xs[j] == ys[j]; } else { assert Alias(model, exprs, xs[i]) != Alias(model, exprs, select[k]); }
    }
  }

  lemma TakenSnoc(model: Model, exprs: Exprs, select: seq<AggregateField>, k: nat, al: string)
    requires k < |select|
    ensures AliasTaken(model, exprs, select[..k + 1], al) <==> AliasTaken(model, exprs, select[..k], al) || al == Alias(model, exprs, select[k])
  {
    hide Alias;
    var xs, ys := select[..k], select[..k + 1];
    if AliasTaken(model, exprs, xs, al) {
      var i :| 0 <= i < |xs| && Alias(model, exprs, xs[i]) == al;
      assert ys[i] == xs[i];
    }
    if al == Alias(model, exprs, select[k]) { assert ys[k] == select[k]; }
    if AliasTaken(model, exprs, ys, al) {
      var i :| 0 <= i < |ys| && Alias(model, exprs, ys[i]) == al;
      if i < k { assert ys[i] == xs[i]; }
    }
  }

  lemma FieldForSnoc(model: Model, exprs: Exprs, select: seq<AggregateField>, k: nat, al: string)
    requires k < |select| && AliasTaken(model, exprs, select[..k + 1], al)
    ensures al != Alias(model, exprs, select[k]) ==> AliasTaken(model, exprs, select[..k], al)
    ensures FieldFor(model, exprs, select[..k + 1], al)
            == if al == Alias(model, exprs, select[k]) then select[k] else FieldFor(model, exprs, select[..k], al)
  {
    hide Alias;
    var ys := select[..k + 1];
    assert ys[..|ys| - 1] == select[..k] && ys[|ys| - 1] == select[k];
    var i :| 0 <= i < |ys| && Alias(model, exprs, ys[i]) == al;
    if i < k { assert select[..k][i] == ys[i]; }
  }

  ghost predicate AliasMap(model: Model, exprs: Exprs, fs: seq<AggregateField>, aliasField: map<string, AggregateField>) {
    forall al :: (al in aliasField <==> AliasTaken(model, exprs, fs, al)) && (al in aliasField ==> aliasField[al] == FieldFor(model, exprs, fs, al))
  }

  lemma AliasMapSnoc(model: Model, exprs: Exprs, select: seq<AggregateField>, k: nat, m: map<string, AggregateField>)
    requires k < |select| && AllFieldsKnown(model, exprs, select[..k]) && AliasesDistinct(model, exprs, select[..k])
    requires SelectCheck(model, exprs, select, k).None? && AliasMap(model, exprs, select[..k], m)
    ensures AliasMap(model, exprs, select[..k + 1], m[Alias(model, exprs, select[k]) := select[k]])
  {
    hide FieldCheck, Alias, AliasTaken, FieldFor, AllFieldsKnown, AliasesDistinct, SelectCheck;
    SelectSnoc(model, exprs, select, k);
    var m' := m[Alias(model, exprs, select[k]) := select[k]];
    forall al ensures (al in m' <==> AliasTaken(model, exprs, select[..k + 1], al))
                      && (al in m' ==> m'[al] == FieldFor(model, exprs, select[..k + 1], al)) {
      assert al in m <==> AliasTaken(model, exprs, select[..k], al);
      TakenSnoc(model, exprs, select, k, al);
      if al in m' {
        FieldForSnoc(model, exprs, select, k, al);
      }
    }
  }

  method SelectParts(meta: ModelMeta, select: seq<AggregateField>, p: Binder)
    returns (r: Result<(seq<Text>, map<string, AggregateField>), AggregateError>)
    requires meta.Valid()
    modifies p
    ensures r.Ok? <==> FirstError(SelectChecks(meta.model, meta.aggExprs, select)).None?
    ensures r.Err? ==> Some(r.error) == FirstError(SelectChecks(meta.model, meta.aggExprs, select))
    ensures r.Ok? ==> AllFieldsKnown(meta.model, meta.aggExprs, select) && AliasMap(meta.model, meta.aggExprs, select, r.value.1)
    ensures r.Ok? ==> |r.value.0| == |select|
    ensures r.Ok? ==> Renders(p.driver, old(p.args), p.args, Join(r.value.0, COMMA), Join(InlineItems(meta.model, meta.aggExprs, select), COMMA))
  {
    hide Renders, FieldCheck, Alias, AliasTaken, AllFieldsKnown, AliasesDistinct, InlineItems, Join, FirstError, SelectChecks, AliasMap, FieldFor, InlineCall;
    ghost var a, model, exprs := p.args, meta.model, meta.aggExprs;
    var parts: seq<Text>, aliasField: map<string, AggregateField> := [], map[];
    NoItems(p.driver, a, model, exprs);
    var i := 0;
    assert select[..0] == [];
    while i < |select|
      invariant 0 <= i <= |select| == |select| && |parts| == i
      invariant a <= p.args
      invariant AllFieldsKnown(model, exprs, select[..i]) && AliasesDistinct(model, exprs, select[..i])
      invariant AliasMap(model, exprs, select[..i], aliasField)
      invariant Renders(p.driver, a, p.args, Join(parts, COMMA), Join(InlineItems(model, exprs, select[..i]), COMMA))
    {
      ghost var b := p.args;
      var f := select[i];
      var one := AggregateSelectSQL(meta, f, p);
      if one.Err? {
        SelectErrorAt(model, exprs, select, i);
        return Err(one.error);
      }
      var part, alias := one.value.0, one.value.1;
      TakenIffMapped(model, exprs, select[..i], aliasField, alias);
      if alias in aliasField {
        SelectErrorAt(model, exprs, select, i);
        return Err(DuplicateAlias);
      }
      SelectSnoc(model, exprs, select, i);
      AliasMapSnoc(model, exprs, select, i, aliasField);
      aliasField := aliasField[alias := f];
      ItemAdded(p.driver, a, b, p.args, parts, model, exprs, select, i, part);
      parts := parts + [part + [Raw("AS"), Ident(alias)]];
      i := i + 1;
      RendersGrows(p.driver, a, p.args, Join(parts, COMMA), Join(InlineItems(model, exprs, select[..i]), COMMA));
    }
    assert select[..i] == select;
    SelectChecksPass(model, exprs, select);
    AllKnownHolds(model, exprs, select);
    r := Ok((parts, aliasField));
  }

  lemma RendersGrows(d: Driver, a: seq<GoValue>, b: seq<GoValue>, t: Text, t': Text)
    requires Renders(d, a, b, t, t')
    ensures a <= b
  {
  }

  lemma AllKnownHolds(model: Model, exprs: Exprs, select: seq<AggregateField>)
    requires AllFieldsKnown(model, exprs, select)
    ensures forall i :: 0 <= i < |select| ==> FieldCheck(model, exprs, select[i]).None?
  {
  }

  lemma TakenIffMapped(model: Model, exprs: Exprs, fs: seq<AggregateField>, m: map<string, AggregateField>, al: string)
    requires AliasMap(model, exprs, fs, m)
    ensures al in m <==> AliasTaken(model, exprs, fs, al)
  {
  }

  lemma NoItems(d: Driver, a: seq<GoValue>, model: Model, exprs: Exprs)
    ensures AllFieldsKnown(model, exprs, []) && AliasesDistinct(model, exprs, []) && AliasMap(model, exprs, [], map[])
    ensures Renders(d, a, a, Join([], COMMA), Join(InlineItems(model, exprs, []), COMMA))
  {
    PlainRenders(d, a, []);
  }

  lemma ItemAdded(d: Driver, a: seq<GoValue>, b: seq<GoValue>, c: seq<GoValue>, parts: seq<Text>,
                  model: Model, exprs: Exprs, select: seq<AggregateField>, i: nat, part: Text)
    requires i < |select| && |parts| == i && AllFieldsKnown(model, exprs, select[..i]) && AllFieldsKnown(model, exprs, select[..i + 1])
    requires FieldCheck(model, exprs, select[i]).None?
    requires InlineItems(model, exprs, select[..i + 1]) == InlineItems(model, exprs, select[..i]) + [InlineItem(model, exprs, select[i])]
    requires Renders(d, a, b, Join(parts, COMMA), Join(InlineItems(model, exprs, select[..i]), COMMA))
    requires Renders(d, b, c, part, InlineCall(model, exprs, select[i]))
    ensures Renders(d, a, c, Join(parts + [part + [Raw("AS"), Ident(Alias(model, exprs, select[i]))]], COMMA),
                    Join(InlineItems(model, exprs, select[..i + 1]), COMMA))
  {
    hide Renders, InlineCall, Alias, Join, FieldCheck;
    var suffix: Text := [Raw("AS"), Ident(Alias(model, exprs, select[i]))];
    Suffixed(d, b, c, part, InlineCall(model, exprs, select[i]), suffix);
    RendersJoin(d, a, b, c, parts, InlineItems(model, exprs, select[..i]), COMMA, part + suffix, InlineItem(model, exprs, select[i]));
  }

  // ---- HAVING -----------------------------------------------------------------------------------

  lemma HavingErrorAt(model: Model, exprs: Exprs, q: AggregateQuery, k: nat)
    requires k < |q.having| && HavingCheck(model, exprs, q.select, q.having[k]).Some?
    requires forall i :: 0 <= i < k ==> HavingCheck(model, exprs, q.select, q.having[i]).None?
    ensures FirstError(HavingChecks(model, exprs, q)) == HavingCheck(model, exprs, q.select, q.having[k])
  {
    hide HavingCheck;
    FirstErrorAt(HavingChecks(model, exprs, q), k);
  }

  ghost predicate HavingsPass(model: Model, exprs: Exprs, select: seq<AggregateField>, hs: seq<HavingClause>) {
    forall i :: 0 <= i < |hs| ==> HavingCheck(model, exprs, select, hs[i]).None?
  }

  lemma HavingsKnown(model: Model, exprs: Exprs, select: seq<AggregateField>, hs: seq<HavingClause>)
    requires HavingsPass(model, exprs, select, hs)
    ensures HavingKnown(model, exprs, select, hs)
  {
    hide AliasTaken, HavingOpAllowed;
  }

  lemma HavingSnoc(model: Model, exprs: Exprs, select: seq<AggregateField>, hs: seq<HavingClause>, k: nat)
    requires k < |hs| && HavingsPass(model, exprs, select, hs[..k]) && HavingCheck(model, exprs, select, hs[k]).None?
    requires AllFieldsKnown(model, exprs, select)
    ensures HavingsPass(model, exprs, select, hs[..k + 1])
    ensures HavingKnown(model, exprs, select, hs[..k]) && HavingKnown(model, exprs, select, hs[..k + 1]) && AliasTaken(model, exprs, select, hs[k].alias)
    ensures InlineHavings(model, exprs, select, hs[..k + 1]) == InlineHavings(model, exprs, select, hs[..k]) + [InlineHaving(model, exprs, select, hs[k])]
  {
    hide HavingCheck, InlineHaving, AliasTaken, AllFieldsKnown;
    assert hs[..k + 1][..k] == hs[..k] && hs[..k + 1][k] == hs[k];
    var ys := hs[..k + 1];
    forall i | 0 <= i < |ys| ensures HavingCheck(model, exprs, select, ys[i]).None? {
      if i < k { assert ys[i] == hs[..k][i]; }
    }
    HavingsKnown(model, exprs, select, hs[..k]);
    HavingsKnown(model, exprs, select, hs[..k + 1]);
    HavingChecked(model, exprs, select, hs[k]);
  }

  lemma HavingChecked(model: Model, exprs: Exprs, select: seq<AggregateField>, h: HavingClause)
    requires HavingCheck(model, exprs, select, h).None?
    ensures AliasTaken(model, exprs, select, h.alias)
  {
  }

  lemma HavingAdded(d: Driver, a: seq<GoValue>, b: seq<GoValue>, c: seq<GoValue>, e: seq<GoValue>, parts: seq<Text>,
                    model: Model, exprs: Exprs, select: seq<AggregateField>, hs: seq<HavingClause>, k: nat, call: Text, ph: Text)
    requires k < |hs| && |parts| == k && AllFieldsKnown(model, exprs, select)
    requires HavingKnown(model, exprs, select, hs[..k]) && HavingKnown(model, exprs, select, hs[..k + 1]) && AliasTaken(model, exprs, select, hs[k].alias)
    requires InlineHavings(model, exprs, select, hs[..k + 1]) == InlineHavings(model, exprs, select, hs[..k]) + [InlineHaving(model, exprs, select, hs[k])]
    requires Renders(d, a, b, Join(parts, AND), Join(InlineHavings(model, exprs, select, hs[..k]), AND))
    requires Renders(d, b, c, call, InlineCall(model, exprs, FieldFor(model, exprs, select, hs[k].alias)))
    requires Renders(d, c, e, ph, [Bound(hs[k].value)])
    ensures Renders(d, a, e, Join(parts + [call + [Raw(SqlOp(hs[k].op))] + ph], AND), Join(InlineHavings(model, exprs, select, hs[..k + 1]), AND))
  {
    hide Renders, InlineCall, Join, FieldCheck, FieldFor, AliasTaken, InlineHavings;
    var sign: Text := [Raw(SqlOp(hs[k].op))];
    var inline := InlineCall(model, exprs, FieldFor(model, exprs, select, hs[k].alias));
    Suffixed(d, b, c, call, inline, sign);
    RendersConcat(d, b, c, e, call + sign, inline + sign, ph, [Bound(hs[k].value)]);
    assert inline + sign + [Bound(hs[k].value)] == InlineHaving(model, exprs, select, hs[k]);
    RendersJoin(d, a, b, e, parts, InlineHavings(model, exprs, select, hs[..k]), AND, call + sign + ph, InlineHaving(model, exprs, select, hs[k]));
  }

  lemma NoHavings(d: Driver, a: seq<GoValue>, model: Model, exprs: Exprs, select: seq<AggregateField>)
    requires AllFieldsKnown(model, exprs, select)
    ensures HavingsPass(model, exprs, select, []) && HavingKnown(model, exprs, select, [])
    ensures Renders(d, a, a, Join([], AND), Join(InlineHavings(model, exprs, select, []), AND))
  {
    PlainRenders(d, a, []);
  }

  /** Re-renders each aggregate it names, so that each occurrence binds its own
      literals. */
  method HavingParts(meta: ModelMeta, q: AggregateQuery, aliasField: map<string, AggregateField>, p: Binder) returns (r: Result<seq<Text>, AggregateError>)
    requires meta.Valid() && AllFieldsKnown(meta.model, meta.aggExprs, q.select) && AliasMap(meta.model, meta.aggExprs, q.select, aliasField)
    modifies p
    ensures r.Ok? <==> FirstError(HavingChecks(meta.model, meta.aggExprs, q)).None?
    ensures r.Err? ==> Some(r.error) == FirstError(HavingChecks(meta.model, meta.aggExprs, q))
    ensures r.Ok? ==> HavingKnown(meta.model, meta.aggExprs, q.select, q.having) && |r.value| == |q.having|
    ensures r.Ok? ==> Renders(p.driver, old(p.args), p.args, Join(r.value, AND), Join(InlineHavings(meta.model, meta.aggExprs, q.select, q.having), AND))
  {
    hide Renders, FieldCheck, Alias, AliasTaken, AllFieldsKnown, InlineHavings, Join, FirstError, HavingChecks, AliasMap, FieldFor, InlineCall, HavingsPass, HavingKnown, HavingOpAllowed;
    ghost var a, model, exprs := p.args, meta.model, meta.aggExprs;
    var parts: seq<Text> := [];
    NoHavings(p.driver, a, model, exprs, q.select);
    var i := 0;
    assert q.having[..0] == [];
    while i < |q.having|
      invariant 0 <= i <= |q.having| && |parts| == i
      invariant HavingsPass(model, exprs, q.select, q.having[..i]) && HavingKnown(model, exprs, q.select, q.having[..i])
      invariant Renders(p.driver, a, p.args, Join(parts, AND), Join(InlineHavings(model, exprs, q.select, q.having[..i]), AND))
    {
      ghost var b := p.args;
      var h := q.having[i];
      TakenIffMapped(model, exprs, q.select, aliasField, h.alias);
      EarlierPass(model, exprs, q.select, q.having, i);
      if h.alias !in aliasField {
        HavingErrorAt(model, exprs, q, i);
        return Err(UnknownHavingAlias);
      }
      if !HavingOpAllowed(h.op) {
        HavingErrorAt(model, exprs, q, i);
        return Err(HavingOpRefused);
      }
      MappedIsSelected(model, exprs, q.select, aliasField, h.alias);
      var one := AggregateSelectSQL(meta, aliasField[h.alias], p);
      ghost var c := p.args;
      var ph := p.Add(h.value);
      HavingSnoc(model, exprs, q.select, q.having, i);
      HavingAdded(p.driver, a, b, c, p.args, parts, model, exprs, q.select, q.having, i, one.value.0, ph);
      parts := parts + [one.value.0 + [Raw(SqlOp(h.op))] + ph];
      i := i + 1;
    }
    assert q.having[..i] == q.having;
    HavingsAllPass(model, exprs, q);
    r := Ok(parts);
  }

  lemma EarlierPass(model: Model, exprs: Exprs, select: seq<AggregateField>, hs: seq<HavingClause>, k: nat)
    requires k <= |hs| && HavingsPass(model, exprs, select, hs[..k])
    ensures forall i :: 0 <= i < k ==> HavingCheck(model, exprs, select, hs[i]).None?
  {
    hide HavingCheck;
    forall i | 0 <= i < k ensures HavingCheck(model, exprs, select, hs[i]).None? { assert hs[..k][i] == hs[i]; }
  }

  lemma HavingsAllPass(model: Model, exprs: Exprs, q: AggregateQuery)
    requires HavingsPass(model, exprs, q.select, q.having)
    ensures FirstError(HavingChecks(model, exprs, q)).None?
  {
    hide HavingCheck;
    FirstErrorNone(HavingChecks(model, exprs, q));
  }

  lemma MappedIsSelected(model: Model, exprs: Exprs, select: seq<AggregateField>, m: map<string, AggregateField>, al: string)
    requires AllFieldsKnown(model, exprs, select) && AliasMap(model, exprs, select, m) && al in m
    ensures AliasTaken(model, exprs, select, al) && m[al] == FieldFor(model, exprs, select, al) && FieldCheck(model, exprs, m[al]).None?
  {
    hide FieldCheck, Alias;
  }
}
