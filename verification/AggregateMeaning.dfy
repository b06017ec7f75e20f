/** A reader of whole aggregate statements, and what the built statement reads back
    as: the query, clause by clause. */
module AggregateMeaning {
  import opened Wrappers
  import opened SqlText
  import opened Filters
  import opened FilterBuild
  import opened FilterMeaning
  import opened FilterTheorems
  import opened AggregateExpr
  import opened Aggregate
  import opened AggregateBuild
  import opened AggregateStatement
  import P = SqlParser

  // ---- syntax --------------------------------------------------------------------------

  datatype Call = CountAll | Call(fn: string, distinct: bool, arg: Arith)

  datatype Item = Aggregated(call: Call, alias: string) | Grouped(table: string, col: string)

  datatype SortKey = ByAlias(alias: string) | ByColumn(table: string, col: string)

  datatype Comparison = Equal | Unequal | Greater | AtLeast | Less | AtMost

  datatype Condition = Condition(call: Call, test: Comparison, value: GoValue)

  datatype Order = Ascending | Descending

  datatype Select = Select(
    items: seq<Item>, table: string, filter: Option<P.Pred>, groups: seq<Item>,
    having: seq<Condition>, order: seq<(SortKey, Order)>, limit: Option<nat>)

  function ReadSign(s: string): Option<Comparison> {
    if s == "=" then Some(Equal)
    else if s == "<>" then Some(Unequal)
    else if s == ">" then Some(Greater)
    else if s == ">=" then Some(AtLeast)
    else if s == "<" then Some(Less)
    else if s == "<=" then Some(AtMost)
    else None
  }

  function ReadOrder(s: string): Option<Order> {
    if s == "ASC" then Some(Ascending) else if s == "DESC" then Some(Descending) else None
  }

  /** What a comparison says of two numbers. */
  predicate Compares(c: Comparison, x: int, y: int) {
    match c
    case Equal => x == y
    case Unequal => x != y
    case Greater => x > y
    case AtLeast => x >= y
    case Less => x < y
    case AtMost => x <= y
  }

  type Parser<T> = Text -> Option<(T, Text)>

  ghost predicate Consumes<T(!new)>(one: Parser<T>) {
    forall t {:trigger one(t)} :: one(t).Some? ==> |one(t).value.1| < |t|
  }

  /** One or more, separated by a keyword. */
  function ParseList<T(!new)>(one: Parser<T>, sep: string, ts: Text): Option<(seq<T>, Text)>
    requires Consumes(one)
    decreases |ts|
  {
    match one(ts)
    case None => None
    case Some(r) =>
      if P.At(r.1, sep) then
        match ParseList(one, sep, r.1[1..]) case None => None case Some(more) => Some(([r.0] + more.0, more.1))
      else Some(([r.0], r.1))
  }

  function ParseColumn(ts: Text): Option<(Item, Text)> {
    if |ts| >= 3 && ts[0].Ident? && ts[1] == Raw(".") && ts[2].Ident? then Some((Grouped(ts[0].name, ts[2].name), ts[3..])) else None
  }

  predicate IsFunction(s: string) {
    s == "COUNT" || s == "SUM" || s == "AVG" || s == "MIN" || s == "MAX"
  }

  function ParseArgument(fn: string, distinct: bool, ts: Text): Option<(Call, Text)> {
    match ParseArith(ts)
    case None => None
    case Some(r) => if P.At(r.1, ")") then Some((Call(fn, distinct, r.0), r.1[1..])) else None
  }

  function ParseCall(ts: Text): Option<(Call, Text)> {
    if P.At(ts, "COUNT(*)") then Some((CountAll, ts[1..]))
    else if |ts| >= 2 && ts[0].Raw? && IsFunction(ts[0].s) && ts[1] == Raw("(") then
      if P.At(ts[2..], "DISTINCT") then ParseArgument(ts[0].s, true, ts[3..]) else ParseArgument(ts[0].s, false, ts[2..])
    else None
  }

  function ParseItem(ts: Text): Option<(Item, Text)> {
    if ts != [] && ts[0].Ident? then ParseColumn(ts)
    else match ParseCall(ts)
      case None => None
      case Some(r) => if |r.1| >= 2 && r.1[0] == Raw("AS") && r.1[1].Ident? then Some((Aggregated(r.0, r.1[1].name), r.1[2..])) else None
  }

  function ParseCondition(ts: Text): Option<(Condition, Text)> {
    match ParseCall(ts)
    case None => None
    case Some(r) =>
      if |r.1| >= 2 && r.1[0].Raw? && r.1[1].Bound? then
        match ReadSign(r.1[0].s) case None => None case Some(c) => Some((Condition(r.0, c, r.1[1].v), r.1[2..]))
      else None
  }

  function ParseOrder(key: SortKey, ts: Text): Option<((SortKey, Order), Text)> {
    if ts != [] && ts[0].Raw? then
      match ReadOrder(ts[0].s) case None => None case Some(o) => Some(((key, o), ts[1..]))
    else None
  }

  function ParseSort(ts: Text): Option<((SortKey, Order), Text)> {
    if |ts| >= 4 && ts[0].Ident? && ts[1] == Raw(".") then
      if ts[2].Ident? then ParseOrder(ByColumn(ts[0].name, ts[2].name), ts[3..]) else None
    else if ts != [] && ts[0].Ident? then ParseOrder(ByAlias(ts[0].name), ts[1..])
    else None
  }

  lemma ParsersConsume()
    ensures Consumes(ParseItem) && Consumes(ParseColumn) && Consumes(ParseCondition) && Consumes(ParseSort)
  {
    hide ParseArith, IsFunction;
  }

  /** A clause introduced by a keyword, when it is there. */
  function ParseClause<T(!new)>(one: Parser<T>, words: string, sep: string, ts: Text): Option<(seq<T>, Text)>
    requires Consumes(one)
  {
    if P.At(ts, words) then ParseList(one, sep, ts[1..]) else Some(([], ts))
  }

  function ParseWhere(ts: Text): Option<(Option<P.Pred>, Text)> {
    if P.At(ts, "WHERE") then match P.ParseOr(ts[1..]) case None => None case Some(r) => Some((Some(r.0), r.1))
    else Some((None, ts))
  }

  function ParseLimit(ts: Text): Option<Option<nat>> {
    if ts == [] then Some(None)
    else if |ts| == 2 && ts[0] == Raw("LIMIT") && ts[1].Raw? then
      match ReadDecimal(ts[1].s) case None => None case Some(n) => Some(Some(n))
    else None
  }

  function ParseTrailer(items: seq<Item>, table: string, filter: Option<P.Pred>, ts: Text): Option<Select> {
    ParsersConsume();
    match ParseClause(ParseColumn, "GROUP BY", ",", ts)
    case None => None
    case Some(g) =>
      match ParseClause(ParseCondition, "HAVING", "AND", g.1)
      case None => None
      case Some(h) =>
        match ParseClause(ParseSort, "ORDER BY", ",", h.1)
        case None => None
        case Some(o) =>
          match ParseLimit(o.1) case None => None case Some(l) => Some(Select(items, table, filter, g.0, h.0, o.0, l))
  }

  function ParseStatement(ts: Text): Option<Select> {
    ParsersConsume();
    if !P.At(ts, "SELECT") then None
    else match ParseList(ParseItem, ",", ts[1..])
      case None => None
      case Some(i) =>
        if |i.1| >= 2 && i.1[0] == Raw("FROM") && i.1[1].Ident? then
          match ParseWhere(i.1[2..]) case None => None case Some(w) => ParseTrailer(i.0, i.1[1].name, w.0, w.1)
        else None
  }

  // ---- what a query should read back as ---------------------------------------------------

  function FunctionName(op: AggregateOp): string {
    match op case Sum => "SUM" case Avg => "AVG" case Min => "MIN" case Max => "MAX" case _ => "COUNT"
  }

  function OperandOf(model: Model, exprs: Exprs, name: string): Arith
    requires KnownOperand(model, exprs, name)
  {
    if name in exprs then Read(model, exprs[name]) else Ref(model.table, ResolveFilterField(model, name).value.dbName)
  }

  function CallOf(model: Model, exprs: Exprs, f: AggregateField): Call
    requires FieldCheck(model, exprs, f).None?
  {
    if f.op.Count? && f.field == "" then CountAll
    else Call(FunctionName(f.op), f.op.CountDistinct?, OperandOf(model, exprs, f.field))
  }

  function ItemsOf(model: Model, exprs: Exprs, fs: seq<AggregateField>): (r: seq<Item>)
    requires AllFieldsKnown(model, exprs, fs)
    ensures |r| == |fs|
  {
    if fs == [] then []
    else ItemsOf(model, exprs, fs[..|fs| - 1]) + [Aggregated(CallOf(model, exprs, fs[|fs| - 1]), Alias(model, exprs, fs[|fs| - 1]))]
  }

  function GroupsOf(model: Model, cols: seq<string>): (r: seq<Item>)
    ensures |r| == |cols|
  {
    if cols == [] then [] else GroupsOf(model, cols[..|cols| - 1]) + [Grouped(model.table, cols[|cols| - 1])]
  }

  function ComparisonOf(op: Op): Comparison {
    match op
    case Neq => Unequal
    case Gt => Greater
    case Gte => AtLeast
    case Lt => Less
    case Lte => AtMost
    case _ => Equal
  }

  /** A condition is on the very aggregate its alias selects. */
  function ConditionOf(model: Model, exprs: Exprs, select: seq<AggregateField>, h: HavingClause): Condition
    requires AllFieldsKnown(model, exprs, select) && AliasTaken(model, exprs, select, h.alias)
  {
    Condition(CallOf(model, exprs, FieldFor(model, exprs, select, h.alias)), ComparisonOf(h.op), h.value)
  }

  ghost function ConditionsOf(model: Model, exprs: Exprs, select: seq<AggregateField>, hs: seq<HavingClause>): (r: seq<Condition>)
    requires AllFieldsKnown(model, exprs, select) && HavingKnown(model, exprs, select, hs)
    ensures |r| == |hs|
  {
    if hs == [] then []
    else ConditionsOf(model, exprs, select, hs[..|hs| - 1]) + [ConditionOf(model, exprs, select, hs[|hs| - 1])]
  }

  function SortOf(model: Model, exprs: Exprs, select: seq<AggregateField>, tidy: string -> string, s: SortExpr): (SortKey, Order) {
    (if AliasTaken(model, exprs, select, s.dbName) then ByAlias(s.dbName) else ByColumn(model.table, s.dbName),
     if tidy(s.direction) == "desc" then Descending else Ascending)
  }

  function SortsOf(model: Model, exprs: Exprs, select: seq<AggregateField>, tidy: string -> string, os: seq<SortExpr>): (r: seq<(SortKey, Order)>)
    ensures |r| == |os|
  {
    if os == [] then []
    else SortsOf(model, exprs, select, tidy, os[..|os| - 1]) + [SortOf(model, exprs, select, tidy, os[|os| - 1])]
  }

  function FilterOf(host: Host, model: Model, fs: FilterList, d: Driver): Option<P.Pred> {
    var ps := PartPreds(host, model, fs, d);
    if ps == [] then None else Some(AndAll(ps))
  }

  ghost function SelectOf(host: Host, model: Model, exprs: Exprs, q: AggregateQuery, tidy: string -> string, d: Driver): Select
    requires Buildable(model, exprs, q)
  {
    Select(ItemsOf(model, exprs, q.select) + GroupsOf(model, q.groupBy), model.table, FilterOf(host, model, q.filters, d), GroupsOf(model, q.groupBy),
           ConditionsOf(model, exprs, q.select, q.having), SortsOf(model, exprs, q.select, tidy, q.orderBy),
           if q.limit > 0 then Some(q.limit as nat) else None)
  }

  // ---- lists read back ------------------------------------------------------------------------

  /** t reads as v, whatever follows. */
  ghost predicate ReadsOne<T(!new)>(one: Parser<T>, t: Text, v: T) {
    forall rest {:trigger t + rest} :: one(t + rest) == Some((v, rest))
  }

  ghost predicate ReadsEach<T(!new)>(one: Parser<T>, ts: seq<Text>, vs: seq<T>) {
    |ts| == |vs| && forall i :: 0 <= i < |ts| ==> ReadsOne(one, ts[i], vs[i])
  }

  lemma JoinRest(ts: seq<Text>, sep: Text, rest: Text)
    requires |ts| >= 2
    ensures Join(ts, sep) + rest == ts[0] + (sep + (Join(ts[1..], sep) + rest))
  {
    hide Join;
    JoinCons(ts, sep);
  }

  lemma {:induction false} ListReads<T(!new)>(one: Parser<T>, sep: string, ts: seq<Text>, vs: seq<T>, rest: Text)
    requires Consumes(one) && ReadsEach(one, ts, vs) && ts != [] && !P.At(rest, sep)
    ensures ParseList(one, sep, Join(ts, [Raw(sep)]) + rest) == Some((vs, rest))
    decreases |ts|
  {
    hide Consumes, ReadsOne;
    if |ts| == 1 {
      HeadReads(one, ts[0], vs[0], rest);
      assert Join(ts, [Raw(sep)]) == ts[0] && vs == [vs[0]];
    } else {
      hide Join;
      JoinRest(ts, [Raw(sep)], rest);
      ListReads(one, sep, ts[1..], vs[1..], rest);
      var more := Join(ts[1..], [Raw(sep)]) + rest;
      HeadReads(one, ts[0], vs[0], [Raw(sep)] + more);
      assert ([Raw(sep)] + more)[1..] == more && vs == [vs[0]] + vs[1..];
    }
  }

  lemma HeadReads<T(!new)>(one: Parser<T>, t: Text, v: T, rest: Text)
    requires ReadsOne(one, t, v)
    ensures one(t + rest) == Some((v, rest))
  {
  }

  lemma {:induction false} JoinLonger(ts: seq<Text>, sep: Text)
    requires ts != [] && forall i :: 0 <= i < |ts| ==> ts[i] != []
    ensures Join(ts, sep) != []
    decreases |ts|
  {
  }

  /** A clause that may be absent. */
  lemma ClauseReads<T(!new)>(one: Parser<T>, words: string, sep: string, ts: seq<Text>, vs: seq<T>, rest: Text)
    requires Consumes(one) && ReadsEach(one, ts, vs) && !P.At(rest, sep) && !P.At(rest, words)
    requires forall i :: 0 <= i < |ts| ==> ts[i] != []
    ensures ParseClause(one, words, sep, Prefaced(words, Join(ts, [Raw(sep)])) + rest) == Some((vs, rest))
  {
    hide Consumes, ParseList;
    if ts == [] {
      assert Prefaced(words, Join(ts, [Raw(sep)])) + rest == rest && vs == [];
    } else {
      JoinLonger(ts, [Raw(sep)]);
      ListReads(one, sep, ts, vs, rest);
      var body := Join(ts, [Raw(sep)]);
      assert Prefaced(words, body) + rest == [Raw(words)] + (body + rest);
      assert ([Raw(words)] + (body + rest))[1..] == body + rest;
    }
  }

  // ---- the elements of the lists -----------------------------------------------------------------

  lemma OperandReads(model: Model, exprs: Exprs, name: string, rest: Text)
    requires KnownOperand(model, exprs, name)
    ensures ParseArith(InlineOperand(model, exprs, name) + rest) == Some((OperandOf(model, exprs, name), rest))
    ensures !P.At(InlineOperand(model, exprs, name) + rest, "DISTINCT")
  {
    hide ParseArith, ResolveFilterField;
    if name in exprs {
      ExprReadsBack(model, exprs[name], rest);
    } else {
      ColumnParses(model.table, ResolveFilterField(model, name).value.dbName, rest);
    }
  }

  lemma CallReads(model: Model, exprs: Exprs, f: AggregateField, rest: Text)
    requires FieldCheck(model, exprs, f).None?
    ensures ParseCall(InlineCall(model, exprs, f) + rest) == Some((CallOf(model, exprs, f), rest))
    ensures var ts := InlineCall(model, exprs, f) + rest; ts != [] && !ts[0].Ident?
  {
    hide ParseArith, KnownOperand, InlineOperand, OperandOf;
    var ts := InlineCall(model, exprs, f) + rest;
    if f.op.Count? && f.field == "" {
      assert ts[1..] == rest;
    } else {
      var close: Text := [Raw(")")] + rest;
      var arg := InlineOperand(model, exprs, f.field) + close;
      KnownFromCheck(model, exprs, f);
      OperandReads(model, exprs, f.field, close);
      assert close[1..] == rest;
      assert ts == CallHead(f.op) + arg;
      ArgumentReads(f.op, arg, OperandOf(model, exprs, f.field), rest);
    }
  }

  lemma KnownFromCheck(model: Model, exprs: Exprs, f: AggregateField)
    requires FieldCheck(model, exprs, f).None? && !(f.op.Count? && f.field == "")
    ensures KnownOperand(model, exprs, f.field) && !f.op.UnknownOp?
  {
  }

  lemma ArgumentReads(op: AggregateOp, arg: Text, a: Arith, rest: Text)
    requires !op.UnknownOp? && ParseArith(arg) == Some((a, [Raw(")")] + rest)) && !P.At(arg, "DISTINCT")
    ensures ParseCall(CallHead(op) + arg) == Some((Call(FunctionName(op), op.CountDistinct?, a), rest))
  {
    hide ParseArith;
    var ts := CallHead(op) + arg;
    assert ([Raw(")")] + rest)[1..] == rest;
    if op.CountDistinct? {
      assert ts[2..] == [Raw("DISTINCT")] + arg && ts[3..] == arg;
    } else {
      assert ts[2..] == arg;
    }
  }

  lemma ItemReads(model: Model, exprs: Exprs, f: AggregateField)
    requires FieldCheck(model, exprs, f).None?
    ensures ReadsOne(ParseItem, InlineItem(model, exprs, f), Aggregated(CallOf(model, exprs, f), Alias(model, exprs, f)))
    ensures InlineItem(model, exprs, f) != []
  {
    hide ParseCall, InlineCall, CallOf, Alias, FieldCheck;
    var t, alias := InlineItem(model, exprs, f), Alias(model, exprs, f);
    forall rest ensures ParseItem(t + rest) == Some((Aggregated(CallOf(model, exprs, f), alias), rest)) {
      var after: Text := [Raw("AS"), Ident(alias)] + rest;
      CallReads(model, exprs, f, after);
      assert t + rest == InlineCall(model, exprs, f) + after && after[2..] == rest;
    }
  }

  lemma GroupColumnReads(table: string, col: string)
    ensures ReadsOne(ParseItem, Column(table, col), Grouped(table, col)) && ReadsOne(ParseColumn, Column(table, col), Grouped(table, col))
  {
    forall rest ensures ParseColumn(Column(table, col) + rest) == Some((Grouped(table, col), rest)) && (Column(table, col) + rest)[0].Ident? {
      assert (Column(table, col) + rest)[3..] == rest;
    }
  }

  lemma ConditionReads(model: Model, exprs: Exprs, select: seq<AggregateField>, h: HavingClause)
    requires AllFieldsKnown(model, exprs, select) && AliasTaken(model, exprs, select, h.alias)
    ensures ReadsOne(ParseCondition, InlineHaving(model, exprs, select, h), ConditionOf(model, exprs, select, h))
    ensures InlineHaving(model, exprs, select, h) != []
  {
    hide ParseCall, InlineCall, CallOf, Alias, FieldCheck, FieldFor, AliasTaken;
    var f := FieldFor(model, exprs, select, h.alias);
    var t := InlineHaving(model, exprs, select, h);
    forall rest ensures ParseCondition(t + rest) == Some((ConditionOf(model, exprs, select, h), rest)) {
      var after: Text := [Raw(SqlOp(h.op)), Bound(h.value)] + rest;
      CallReads(model, exprs, f, after);
      assert t + rest == InlineCall(model, exprs, f) + after && after[2..] == rest;
    }
  }

  lemma SortReads(model: Model, exprs: Exprs, select: seq<AggregateField>, tidy: string -> string, s: SortExpr)
    ensures ReadsOne(ParseSort, OrderPart(model, exprs, select, tidy, s), SortOf(model, exprs, select, tidy, s))
    ensures OrderPart(model, exprs, select, tidy, s) != []
  {
    hide AliasTaken;
    var t := OrderPart(model, exprs, select, tidy, s);
    forall rest ensures ParseSort(t + rest) == Some((SortOf(model, exprs, select, tidy, s), rest)) {
      var ts: Text := t + rest;
      if AliasTaken(model, exprs, select, s.dbName) {
        assert ts[1..][1..] == rest && (ts[1] == Raw("ASC") || ts[1] == Raw("DESC"));
      } else {
        assert ts[3..][1..] == rest;
      }
    }
  }

  predicate NoneEmpty(ts: seq<Text>) {
    forall i :: 0 <= i < |ts| ==> ts[i] != []
  }

  lemma {:induction false} ItemsRead(model: Model, exprs: Exprs, fs: seq<AggregateField>)
    requires AllFieldsKnown(model, exprs, fs)
    ensures ReadsEach(ParseItem, InlineItems(model, exprs, fs), ItemsOf(model, exprs, fs)) && NoneEmpty(InlineItems(model, exprs, fs))
    decreases |fs|
  {
    hide ReadsOne, InlineItem, CallOf, Alias, FieldCheck;
    if fs != [] {
      ItemsRead(model, exprs, fs[..|fs| - 1]);
      ItemReads(model, exprs, fs[|fs| - 1]);
    }
  }

  lemma {:induction false} GroupsRead(model: Model, cols: seq<string>)
    ensures ReadsEach(ParseItem, GroupColumns(model, cols), GroupsOf(model, cols))
    ensures ReadsEach(ParseColumn, GroupColumns(model, cols), GroupsOf(model, cols)) && NoneEmpty(GroupColumns(model, cols))
    decreases |cols|
  {
    hide ReadsOne;
    if cols != [] {
      GroupsRead(model, cols[..|cols| - 1]);
      GroupColumnReads(model.table, cols[|cols| - 1]);
    }
  }

  lemma {:induction false} ConditionsRead(model: Model, exprs: Exprs, select: seq<AggregateField>, hs: seq<HavingClause>)
    requires AllFieldsKnown(model, exprs, select) && HavingKnown(model, exprs, select, hs)
    ensures ReadsEach(ParseCondition, InlineHavings(model, exprs, select, hs), ConditionsOf(model, exprs, select, hs))
    ensures NoneEmpty(InlineHavings(model, exprs, select, hs))
    decreases |hs|
  {
    hide ReadsOne, InlineHaving, ConditionOf, AliasTaken, AllFieldsKnown;
    if hs != [] {
      ConditionsRead(model, exprs, select, hs[..|hs| - 1]);
      ConditionReads(model, exprs, select, hs[|hs| - 1]);
    }
  }

  lemma {:induction false} SortsRead(model: Model, exprs: Exprs, select: seq<AggregateField>, tidy: string -> string, os: seq<SortExpr>)
    ensures ReadsEach(ParseSort, OrderParts(model, exprs, select, tidy, os), SortsOf(model, exprs, select, tidy, os))
    ensures NoneEmpty(OrderParts(model, exprs, select, tidy, os))
    decreases |os|
  {
    hide ReadsOne, OrderPart, SortOf;
    if os != [] {
      SortsRead(model, exprs, select, tidy, os[..|os| - 1]);
      SortReads(model, exprs, select, tidy, os[|os| - 1]);
    }
  }

  // ---- the clauses ----------------------------------------------------------------------------------

  /** Starts with the keyword of a clause after FROM, or is the end. */
  predicate Trailing(ts: Text) {
    ts == [] || P.At(ts, "WHERE") || EndsWhere(ts)
  }

  lemma PrefacedTrails(words: string, body: Text, rest: Text)
    requires words == "GROUP BY" || words == "HAVING" || words == "ORDER BY"
    requires EndsWhere(rest)
    ensures EndsWhere(Prefaced(words, body) + rest)
  {
    if body == [] { assert Prefaced(words, body) + rest == rest; }
  }

  lemma WhereReads(host: Host, model: Model, fs: FilterList, d: Driver, rest: Text)
    requires EndsWhere(rest)
    ensures ParseWhere(Prefaced("WHERE", InlineFilters(host, model, fs, d)) + rest) == Some((FilterOf(host, model, fs, d), rest))
    ensures Trailing(Prefaced("WHERE", InlineFilters(host, model, fs, d)) + rest)
  {
    hide InlineParts, PartPreds, ReadsTight, P.ParseOr, Join, AndAll;
    var ts, ps := InlineParts(host, model, fs, d), PartPreds(host, model, fs, d);
    PartsTight(host, model, fs, d);
    var body := InlineFilters(host, model, fs, d);
    if ts == [] {
      JoinNothing();
      assert Prefaced("WHERE", body) + rest == rest;
    } else {
      AndJoinReads(ts, ps, rest);
      JoinNotEmpty(ts, ps);
      assert Prefaced("WHERE", body) + rest == [Raw("WHERE")] + (body + rest);
      assert ([Raw("WHERE")] + (body + rest))[1..] == body + rest;
    }
  }

  lemma LimitReads(limit: int)
    ensures ParseLimit(LimitText(limit)) == Some(if limit > 0 then Some(limit as nat) else None)
    ensures LimitText(limit) == [] || P.At(LimitText(limit), "LIMIT")
  {
    hide Itoa;
    if limit > 0 { ItoaReads(limit); }
  }

  lemma TrailerReads(model: Model, exprs: Exprs, q: AggregateQuery, tidy: string -> string, items: seq<Item>, table: string, filter: Option<P.Pred>)
    requires Buildable(model, exprs, q)
    ensures var t := Prefaced("GROUP BY", Join(GroupColumns(model, q.groupBy), COMMA))
                     + (Prefaced("HAVING", Join(InlineHavings(model, exprs, q.select, q.having), AND))
                        + (Prefaced("ORDER BY", Join(OrderParts(model, exprs, q.select, tidy, q.orderBy), COMMA)) + LimitText(q.limit)));
            && EndsWhere(t)
            && ParseTrailer(items, table, filter, t)
               == Some(Select(items, table, filter, GroupsOf(model, q.groupBy), ConditionsOf(model, exprs, q.select, q.having),
                              SortsOf(model, exprs, q.select, tidy, q.orderBy), if q.limit > 0 then Some(q.limit as nat) else None))
  {
    hide ParseClause, ParseLimit, LimitText, Prefaced, Join, GroupColumns, InlineHavings, OrderParts, GroupsOf, ConditionsOf, SortsOf, Consumes, ReadsEach,
         AllFieldsKnown, HavingKnown;
    ParsersConsume();
    GroupsRead(model, q.groupBy);
    ConditionsRead(model, exprs, q.select, q.having);
    SortsRead(model, exprs, q.select, tidy, q.orderBy);
    LimitReads(q.limit);
    var l := LimitText(q.limit);
    var o := Prefaced("ORDER BY", Join(OrderParts(model, exprs, q.select, tidy, q.orderBy), COMMA)) + l;
    var h := Prefaced("HAVING", Join(InlineHavings(model, exprs, q.select, q.having), AND)) + o;
    ClauseReads(ParseSort, "ORDER BY", ",", OrderParts(model, exprs, q.select, tidy, q.orderBy), SortsOf(model, exprs, q.select, tidy, q.orderBy), l);
    PrefacedTrails("ORDER BY", Join(OrderParts(model, exprs, q.select, tidy, q.orderBy), COMMA), l);
    NotHaving("ORDER BY", Join(OrderParts(model, exprs, q.select, tidy, q.orderBy), COMMA), l);
    ClauseReads(ParseCondition, "HAVING", "AND", InlineHavings(model, exprs, q.select, q.having), ConditionsOf(model, exprs, q.select, q.having), o);
    PrefacedTrails("HAVING", Join(InlineHavings(model, exprs, q.select, q.having), AND), o);
    NotGroup("HAVING", Join(InlineHavings(model, exprs, q.select, q.having), AND), o);
    ClauseReads(ParseColumn, "GROUP BY", ",", GroupColumns(model, q.groupBy), GroupsOf(model, q.groupBy), h);
    PrefacedTrails("GROUP BY", Join(GroupColumns(model, q.groupBy), COMMA), h);
  }

  lemma NotHaving(words: string, body: Text, rest: Text)
    requires words == "ORDER BY" && (rest == [] || P.At(rest, "LIMIT"))
    ensures var t := Prefaced(words, body) + rest; !P.At(t, "HAVING") && !P.At(t, "GROUP BY")
  {
    if body == [] { assert Prefaced(words, body) + rest == rest; }
  }

  lemma NotGroup(words: string, body: Text, rest: Text)
    requires words == "HAVING" && !P.At(rest, "GROUP BY")
    ensures !P.At(Prefaced(words, body) + rest, "GROUP BY")
  {
    if body == [] { assert Prefaced(words, body) + rest == rest; }
  }

  // ---- the theorem --------------------------------------------------------------------------------------

  lemma ItemListReads(model: Model, exprs: Exprs, q: AggregateQuery, rest: Text)
    requires Buildable(model, exprs, q) && q.select != [] && P.At(rest, "FROM")
    ensures Consumes(ParseItem)
    ensures ParseList(ParseItem, ",", Join(InlineItems(model, exprs, q.select) + GroupColumns(model, q.groupBy), COMMA) + rest)
            == Some((ItemsOf(model, exprs, q.select) + GroupsOf(model, q.groupBy), rest))
  {
    hide ReadsOne, Consumes, Join, ParseList, ItemsOf, GroupsOf, InlineItems, GroupColumns, AllFieldsKnown, HavingKnown;
    ParsersConsume();
    ItemsRead(model, exprs, q.select);
    GroupsRead(model, q.groupBy);
    ListReads(ParseItem, ",", InlineItems(model, exprs, q.select) + GroupColumns(model, q.groupBy), ItemsOf(model, exprs, q.select) + GroupsOf(model, q.groupBy), rest);
  }

  /** The statement, its values in place, reads back as exactly the query: each item
      with its expression tree and alias, the filters' predicate, the groups, the
      conditions on the very aggregates they name, the order and the limit. */
  lemma StatementReadsBack(host: Host, model: Model, exprs: Exprs, q: AggregateQuery, tidy: string -> string, d: Driver)
    requires Buildable(model, exprs, q) && q.select != []
    ensures ParseStatement(InlineStatement(host, model, exprs, q, tidy, d)) == Some(SelectOf(host, model, exprs, q, tidy, d))
  {
    hide ParseList, ParseWhere, ParseTrailer, Prefaced, LimitText, Join, InlineItems, GroupColumns, InlineHavings, OrderParts, InlineFilters, FilterOf,
         ItemsOf, GroupsOf, ConditionsOf, SortsOf, Consumes, Buildable;
    ParsersConsume();
    BuildableParts(model, exprs, q);
    var g := Prefaced("GROUP BY", Join(GroupColumns(model, q.groupBy), COMMA));
    var h := Prefaced("HAVING", Join(InlineHavings(model, exprs, q.select, q.having), AND));
    var o := Prefaced("ORDER BY", Join(OrderParts(model, exprs, q.select, tidy, q.orderBy), COMMA));
    var l := LimitText(q.limit);
    var trailer := g + (h + (o + l));
    var items := ItemsOf(model, exprs, q.select) + GroupsOf(model, q.groupBy);
    TrailerReads(model, exprs, q, tidy, items, model.table, FilterOf(host, model, q.filters, d));
    WhereReads(host, model, q.filters, d, trailer);
    var w := Prefaced("WHERE", InlineFilters(host, model, q.filters, d));
    var from: Text := [Raw("FROM"), Ident(model.table)] + (w + trailer);
    ItemListReads(model, exprs, q, from);
    var list := Join(InlineItems(model, exprs, q.select) + GroupColumns(model, q.groupBy), COMMA);
    assert from[2..] == w + trailer;
    var ts := [Raw("SELECT")] + (list + from);
    assert ts[1..] == list + from;
    Regroup([Raw("SELECT")], list, [Raw("FROM"), Ident(model.table)], w, g, h, o, l);
  }

  lemma BuildableParts(model: Model, exprs: Exprs, q: AggregateQuery)
    requires Buildable(model, exprs, q)
    ensures AllFieldsKnown(model, exprs, q.select) && HavingKnown(model, exprs, q.select, q.having)
  {
  }

  lemma Regroup(a: Text, b: Text, c: Text, w: Text, g: Text, h: Text, o: Text, l: Text)
    ensures a + b + c + w + g + h + o + l == a + (b + (c + (w + (g + (h + (o + l))))))
  {
  }

  /** From the statement as built: with its arguments put in, it reads back as the
      query, and its WHERE is true on exactly the rows the filters select. */
  lemma BuiltStatementMeansQuery(host: Host, model: Model, exprs: Exprs, q: AggregateQuery, tidy: string -> string, d: Driver,
                                 text: Text, args: seq<GoValue>, e: P.Engine, row: P.Row)
    requires Buildable(model, exprs, q) && q.select != [] && (d.SQLite? ==> AllFit(host, q.filters, d)) && e.Lawful()
    requires TextDone(d, [], args, AllFit(host, q.filters, d), TotalSurplus(host, q.filters), text, InlineStatement(host, model, exprs, q, tidy, d))
    ensures ParseStatement(Resolve(text, args, 0)) == Some(SelectOf(host, model, exprs, q, tidy, d))
    ensures var filter := SelectOf(host, model, exprs, q, tidy, d).filter;
            (filter.Some? ==> P.Holds(e, row, filter.value) == P.True) <==> Selects(host, e, d, model, q.filters, row)
  {
    StatementReadsBack(host, model, exprs, q, tidy, d);
    FilterMeans(host, e, model, q.filters, d, row);
  }

  lemma FilterMeans(host: Host, e: P.Engine, model: Model, fs: FilterList, d: Driver, row: P.Row)
    requires e.Lawful()
    ensures (FilterOf(host, model, fs, d).Some? ==> P.Holds(e, row, FilterOf(host, model, fs, d).value) == P.True)
            <==> Selects(host, e, d, model, fs, row)
  {
    hide PartPreds, PartsPass, Selects, P.Holds, AndAll;
    PartsMean(host, e, model, fs, d, row);
    if PartPreds(host, model, fs, d) != [] { AndAllMeans(e, row, PartPreds(host, model, fs, d)); }
    if Selects(host, e, d, model, fs, row) { SelectedPartsPass(host, e, d, model, fs, row); }
    if PartsPass(host, e, d, model, fs, row) { PassingPartsSelect(host, e, d, model, fs, row); }
  }
}
