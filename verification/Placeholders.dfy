/** What a driver counts in the finished characters: the "?" outside quoted
    identifiers are the placeholders, one for each argument. */
module Placeholders {
  import opened Wrappers
  import opened SqlText
  import opened Filters
  import opened FilterBuild
  import opened AggregateExpr
  import opened Aggregate
  import opened AggregateBuild
  import LikePattern

  // ---- texts whose fixed fragments are plain -------------------------------------------

  lemma PlainConcat(a: Text, b: Text)
    ensures PlainFragments(a + b) <==> PlainFragments(a) && PlainFragments(b)
  {
    if PlainFragments(a + b) {
      assert forall t :: t in a ==> t in a + b;
      assert forall t :: t in b ==> t in a + b;
    }
  }

  predicate AllPlainFragments(parts: seq<Text>) {
    forall t | t in parts :: PlainFragments(t)
  }

  lemma {:induction false} PlainJoin(parts: seq<Text>, sep: Text)
    requires AllPlainFragments(parts) && PlainFragments(sep)
    ensures PlainFragments(Join(parts, sep))
    decreases |parts|
  {
    hide PlainFragments;
    PlainNothing();
    if |parts| == 1 {
      assert parts[0] in parts;
    } else if parts != [] {
      var init, last := parts[..|parts| - 1], parts[|parts| - 1];
      assert last in parts;
      PlainJoin(init, sep);
      PlainConcat(Join(init, sep), sep);
      PlainConcat(Join(init, sep) + sep, last);
    }
  }

  lemma PlainNothing()
    ensures PlainFragments([])
  {
  }

  /** Putting the arguments in touches no fragment. */
  lemma {:induction false} PlainResolve(ts: Text, args: seq<GoValue>, k: nat)
    ensures PlainFragments(Resolve(ts, args, k)) <==> PlainFragments(ts)
  {
    hide PlainFragments;
    if ts != [] {
      var l := k + if ts[0].Positional? then 1 else 0;
      PlainResolve(ts[1..], args, l);
      assert ts == [ts[0]] + ts[1..];
      PlainConcat([ts[0]], ts[1..]);
      PlainConcat([Put(ts[0], args, k)], Resolve(ts[1..], args, l));
      PlainPut(ts[0], args, k);
    }
  }

  lemma PlainPut(t: Token, args: seq<GoValue>, k: nat)
    ensures PlainFragments([Put(t, args, k)]) <==> PlainFragments([t])
  {
    assert t in [t] && Put(t, args, k) in [Put(t, args, k)];
  }

  // ---- the filters' clause ----------------------------------------------------------------

  lemma ColumnFragments(table: string, col: string)
    ensures PlainFragments(Column(table, col))
  {
  }

  lemma {:induction false} BoundsFragments(vs: seq<GoValue>)
    ensures AllPlainFragments(Bounds(vs))
    decreases |vs|
  {
    if vs != [] { BoundsFragments(vs[..|vs| - 1]); }
  }

  lemma ConstantFragments()
    ensures PlainFragments(FALSE_PREDICATE) && PlainFragments(TRUE_PREDICATE) && PlainFragments(AND) && PlainFragments(OR) && PlainFragments(COMMA)
  {
  }

  lemma Around(head: Text, col: Text, tail: Text)
    requires PlainFragments(head) && PlainFragments(col) && PlainFragments(tail)
    ensures PlainFragments(head + col + tail) && PlainFragments(col + tail) && PlainFragments(head + col)
  {
    PlainConcat(head, col);
    PlainConcat(head + col, tail);
    PlainConcat(col, tail);
  }

  lemma InFragments(col: Text, vs: seq<GoValue>, negate: bool)
    requires PlainFragments(col)
    ensures PlainFragments(InlineIn(col, vs, negate))
  {
    hide PlainFragments;
    ConstantFragments();
    if vs != [] {
      var kw: Text := [Raw(if negate then "NOT IN" else "IN"), Raw("(")];
      BoundsFragments(vs);
      PlainJoin(Bounds(vs), COMMA);
      KeywordFragments(negate);
      PlainConcat(col, kw);
      Around(col + kw, Join(Bounds(vs), COMMA), [Raw(")")]);
    }
  }

  lemma KeywordFragments(negate: bool)
    ensures PlainFragments([Raw(if negate then "NOT IN" else "IN"), Raw("(")]) && PlainFragments([Raw(")")]) && PlainFragments([Raw("(")])
  {
  }

  lemma BetweenFragments(col: Text, vs: seq<GoValue>)
    requires PlainFragments(col)
    ensures PlainFragments(InlineBetween(col, vs))
  {
    hide PlainFragments;
    ConstantFragments();
    if |vs| == 2 {
      var mid: Text := [Raw(">="), Bound(vs[0]), Raw("AND")];
      var end: Text := [Raw("<="), Bound(vs[1]), Raw(")")];
      BoundWords(vs[0], vs[1]);
      Around([Raw("(")], col, mid);
      Around([Raw("(")] + col + mid, col, end);
    }
  }

  lemma BoundWords(lo: GoValue, hi: GoValue)
    ensures PlainFragments([Raw("(")]) && PlainFragments([Raw(">="), Bound(lo), Raw("AND")]) && PlainFragments([Raw("<="), Bound(hi), Raw(")")])
  {
  }

  lemma SubstringFragments(col: Text, pattern: string, d: Driver)
    requires PlainFragments(col)
    ensures PlainFragments(InlineSubstring(col, pattern, d))
  {
    hide PlainFragments;
    SubstringWords(pattern);
    Around([Raw("LOWER"), Raw("(")], col,
           [Raw(")"), Raw("LIKE"), Raw("LOWER"), Raw("("), Bound(Str(pattern)), Raw(")"), Raw("ESCAPE"), Raw("'\\'")]);
    Around([Raw("LOWER"), Raw("(")], col, [Raw("ILIKE"), Bound(Str(pattern)), Raw("ESCAPE"), Raw("'\\'")]);
  }

  lemma Words()
    ensures PlainString("(") && PlainString(")") && PlainString("=") && PlainString(".")
    ensures PlainString("LOWER") && PlainString("LIKE") && PlainString("ILIKE") && PlainString("ESCAPE") && PlainString("'\\'")
  {
  }

  lemma JsonWords()
    ensures PlainString("@>") && PlainString("::jsonb") && PlainString("EXISTS") && PlainString("WHERE") && PlainString("json_quote")
  {
  }

  lemma EachWords()
    ensures PlainString("SELECT 1 FROM json_each")
  {
    var a, b, c := "SELECT 1", " FROM ", "json_each";
    assert PlainString(a);
    assert PlainString(b);
    assert PlainString(c);
    assert "SELECT 1 FROM json_each" == a + b + c;
  }

  lemma SubstringWords(pattern: string)
    ensures PlainFragments([Raw("LOWER"), Raw("(")])
    ensures PlainFragments([Raw(")"), Raw("LIKE"), Raw("LOWER"), Raw("("), Bound(Str(pattern)), Raw(")"), Raw("ESCAPE"), Raw("'\\'")])
    ensures PlainFragments([Raw("ILIKE"), Bound(Str(pattern)), Raw("ESCAPE"), Raw("'\\'")])
  {
    hide PlainString;
    Words();
  }

  lemma OperatorWords(op: Op, val: GoValue)
    ensures CompareSign(op).Some? ==> PlainFragments([Raw(CompareSign(op).value), Bound(val)])
    ensures PlainFragments([Raw("IS NULL")]) && PlainFragments([Raw("IS NOT NULL")])
    ensures PlainFragments([Raw("LIKE"), Bound(val)]) && PlainFragments([Raw("ILIKE"), Bound(val)])
    ensures PlainFragments([Raw("LOWER"), Raw("(")])
    ensures PlainFragments([Raw(")"), Raw("LIKE"), Raw("LOWER"), Raw("("), Bound(val), Raw(")")])
  {
    hide PlainString;
    Words();
    SignWords(op);
  }

  lemma SignWords(op: Op)
    ensures CompareSign(op).Some? ==> PlainString(CompareSign(op).value)
    ensures PlainString("IS NULL") && PlainString("IS NOT NULL")
  {
  }

  lemma PredicateFragments(host: Host, col: Text, op: Op, val: GoValue, d: Driver)
    requires PlainFragments(col)
    ensures PlainFragments(InlinePredicate(host, col, op, val, d))
  {
    hide PlainFragments, InlineIn, InlineBetween, InlineSubstring, LikePattern.Pattern, SplitFilterList;
    ConstantFragments();
    OperatorWords(op, val);
    if CompareSign(op).Some? { PlainConcat(col, [Raw(CompareSign(op).value), Bound(val)]); }
    if SubstringShape(op).Some? { SubstringFragments(col, LikePattern.Pattern(SubstringShape(op).value, SubstringValue(host, val)), d); }
    PlainConcat(col, [Raw("IS NULL")]);
    PlainConcat(col, [Raw("IS NOT NULL")]);
    PlainConcat(col, [Raw("LIKE"), Bound(val)]);
    PlainConcat(col, [Raw("ILIKE"), Bound(val)]);
    Around([Raw("LOWER"), Raw("(")], col, [Raw(")"), Raw("LIKE"), Raw("LOWER"), Raw("("), Bound(val), Raw(")")]);
    InFragments(col, SplitFilterList(host, val), false);
    InFragments(col, SplitFilterList(host, val), true);
    BetweenFragments(col, SplitFilterList(host, val));
  }

  lemma RemoteFragments(model: Model, f: Filter, d: Driver)
    requires f.isLocale || f.isNested
    ensures PlainFragments(InlineColumn(model, f, d))
  {
    hide PlainFragments;
    var col := Column(model.table, f.field);
    ColumnFragments(model.table, f.field);
    ColumnFragments(f.relationKey, f.nestedField);
    LocaleWords(f.localeKey);
    PlainConcat(col, [Raw("->>"), Bound(Str(f.localeKey)), Raw("::text")]);
    Around([Raw("json_extract"), Raw("(")], col, [Raw(","), Bound(Str("$." + f.localeKey)), Raw(")")]);
  }

  lemma LocaleWords(key: string)
    ensures PlainFragments([Raw("->>"), Bound(Str(key)), Raw("::text")])
    ensures PlainFragments([Raw("json_extract"), Raw("(")]) && PlainFragments([Raw(","), Bound(Str("$." + key)), Raw(")")])
  {
    hide PlainString;
    Words();
    ExtractWords();
  }

  lemma ExtractWords()
    ensures PlainString("->>") && PlainString("::text") && PlainString("json_extract") && PlainString(",")
  {
  }

  lemma ArrayWords(lit: string)
    ensures PlainFragments([Raw("@>"), Bound(Str(lit)), Raw("::jsonb")])
    ensures PlainFragments([Raw("EXISTS"), Raw("("), Raw("SELECT 1 FROM json_each"), Raw("(")])
    ensures PlainFragments([Raw(")"), Raw("WHERE"), Raw("json_quote"), Raw("("), Ident("json_each"), Raw("."), Ident("value"), Raw(")"),
                            Raw("="), Bound(Str(lit)), Raw(")")])
  {
    hide PlainString;
    Words();
    JsonWords();
    EachWords();
  }

  lemma ObjectWords(path: string, lit: string)
    ensures PlainFragments([Raw("json_quote"), Raw("("), Raw("json_extract"), Raw("(")])
    ensures PlainFragments([Raw(","), Bound(Str(path)), Raw(")"), Raw(")"), Raw("="), Bound(Str(lit))])
  {
    hide PlainString;
    Words();
    JsonWords();
    ExtractWords();
  }

  lemma HasFragments(host: Host, col: Text, fm: Field, val: GoValue, d: Driver)
    requires PlainFragments(col)
    ensures InlineHas(host, col, fm, val, d).Some? ==> PlainFragments(InlineHas(host, col, fm, val, d).value)
  {
    hide PlainFragments, CutPair, JsonPathSafeKey;
    if fm.jsonArray {
      if host.marshal(val).Some? { ArrayFragments(col, host.marshal(val).value); }
    } else if fm.jsonObject && CutPair(host.sprint(val)).Some? {
      var pair := CutPair(host.sprint(val)).value;
      if host.marshalPair(pair.0, pair.1).Some? { ArrayFragments(col, host.marshalPair(pair.0, pair.1).value); }
      if host.marshal(Str(pair.1)).Some? { ObjectFragments(col, "$.\"" + pair.0 + "\"", host.marshal(Str(pair.1)).value); }
    }
  }

  lemma ArrayFragments(col: Text, lit: string)
    requires PlainFragments(col)
    ensures PlainFragments(col + [Raw("@>"), Bound(Str(lit)), Raw("::jsonb")])
    ensures PlainFragments([Raw("EXISTS"), Raw("("), Raw("SELECT 1 FROM json_each"), Raw("(")] + col
                           + [Raw(")"), Raw("WHERE"), Raw("json_quote"), Raw("("), Ident("json_each"), Raw("."), Ident("value"), Raw(")"),
                              Raw("="), Bound(Str(lit)), Raw(")")])
  {
    hide PlainFragments;
    ArrayWords(lit);
    PlainConcat(col, [Raw("@>"), Bound(Str(lit)), Raw("::jsonb")]);
    Around([Raw("EXISTS"), Raw("("), Raw("SELECT 1 FROM json_each"), Raw("(")], col,
           [Raw(")"), Raw("WHERE"), Raw("json_quote"), Raw("("), Ident("json_each"), Raw("."), Ident("value"), Raw(")"),
            Raw("="), Bound(Str(lit)), Raw(")")]);
  }

  lemma ObjectFragments(col: Text, path: string, lit: string)
    requires PlainFragments(col)
    ensures PlainFragments([Raw("json_quote"), Raw("("), Raw("json_extract"), Raw("(")] + col
                           + [Raw(","), Bound(Str(path)), Raw(")"), Raw(")"), Raw("="), Bound(Str(lit))])
  {
    hide PlainFragments;
    ObjectWords(path, lit);
    Around([Raw("json_quote"), Raw("("), Raw("json_extract"), Raw("(")], col,
           [Raw(","), Bound(Str(path)), Raw(")"), Raw(")"), Raw("="), Bound(Str(lit))]);
  }

  lemma NotWords()
    ensures PlainFragments([Raw("NOT"), Raw("(")]) && PlainFragments([Raw(")")])
  {
  }

  lemma FieldWords(op: Op)
    ensures FieldComparisonOp(op).Some? ==> PlainFragments([Raw(FieldComparisonOp(op).value)])
  {
  }

  /** One filter, whatever its names, operator and value. */
  lemma CondFragments(host: Host, model: Model, f: Filter, d: Driver)
    ensures PlainFragments(InlineCond(host, model, f, d))
  {
    hide PlainFragments, InlinePredicate, InlineHas, Column, InlineColumn;
    ConstantFragments();
    NotWords();
    FieldWords(f.op);
    if f.isLocale || f.isNested {
      RemoteFragments(model, f, d);
      PredicateFragments(host, InlineColumn(model, f, d), f.op, f.value, d);
    } else {
      match ResolveFilterField(model, f.field) {
        case None =>
        case Some(fm) =>
          var col := Column(model.table, fm.dbName);
          ColumnFragments(model.table, fm.dbName);
          HasFragments(host, col, fm, f.value, d);
          PredicateFragments(host, col, f.op, host.normalize(fm.kind, f.op, f.value), d);
          if InlineHas(host, col, fm, f.value, d).Some? { Around([Raw("NOT"), Raw("(")], InlineHas(host, col, fm, f.value, d).value, [Raw(")")]); }
          if FieldComparisonOp(f.op).Some? && ResolveFilterField(model, f.valueField).Some? {
            var rhs := Column(model.table, ResolveFilterField(model, f.valueField).value.dbName);
            ColumnFragments(model.table, ResolveFilterField(model, f.valueField).value.dbName);
            Around(col, [Raw(FieldComparisonOp(f.op).value)], rhs);
          }
      }
    }
  }

  lemma {:induction false} CondsFragments(host: Host, model: Model, fs: seq<Filter>, d: Driver)
    ensures AllPlainFragments(Conds(host, model, fs, d))
    decreases |fs|
  {
    hide PlainFragments, InlineCond;
    if fs != [] {
      CondsFragments(host, model, fs[..|fs| - 1], d);
      CondFragments(host, model, fs[|fs| - 1], d);
    }
  }

  lemma GroupFragments(host: Host, model: Model, fs: seq<Filter>, d: Driver)
    requires fs != []
    ensures PlainFragments(InlineGroup(host, model, fs, d))
  {
    hide PlainFragments, InlineCond, Conds, Join;
    ConstantFragments();
    CondFragments(host, model, fs[0], d);
    CondsFragments(host, model, fs, d);
    PlainJoin(Conds(host, model, fs, d), OR);
    KeywordFragments(false);
    Around([Raw("(")], Join(Conds(host, model, fs, d), OR), [Raw(")")]);
  }

  lemma {:induction false} GroupsFragments(host: Host, model: Model, fs: FilterList, order: seq<int>, d: Driver)
    requires GroupsNonEmpty(fs, order)
    ensures AllPlainFragments(GroupConds(host, model, fs, order, d))
    decreases |order|
  {
    hide PlainFragments, InlineGroup, Members;
    if order != [] {
      var init, last := order[..|order| - 1], order[|order| - 1];
      assert last in order;
      GroupsFragments(host, model, fs, init, d);
      GroupFragments(host, model, Members(fs, last), d);
    }
  }

  lemma FiltersFragments(host: Host, model: Model, fs: FilterList, d: Driver)
    ensures PlainFragments(InlineFilters(host, model, fs, d))
  {
    hide PlainFragments, Conds, GroupConds, Ungrouped, GroupOrder, Members, Join;
    OrderNonEmpty(fs);
    CondsFragments(host, model, Ungrouped(fs), d);
    GroupsFragments(host, model, fs, GroupOrder(fs), d);
    ConstantFragments();
    PlainJoin(InlineParts(host, model, fs, d), AND);
  }

  /** On SQLite, when every filter fits, the "?" outside quotes in the clause as
      built number exactly the arguments bound for it; Postgres sees none at all. */
  lemma ClauseQuestionMarks(host: Host, model: Model, fs: FilterList, d: Driver, a: seq<GoValue>, b: seq<GoValue>, t: Text)
    requires d.SQLite? ==> AllFit(host, fs, d)
    requires TextDone(d, a, b, AllFit(host, fs, d), TotalSurplus(host, fs), t, InlineFilters(host, model, fs, d))
    ensures QuestionMarks(Show(t), false) == if d.SQLite? then |b| - |a| else 0
  {
    hide InlineFilters, PlainFragments, AllFit, TotalSurplus, Show, QuestionMarks;
    FiltersFragments(host, model, fs, d);
    PlainResolve(t, b, |a|);
    HolesAreTheQuestionMarks(t);
  }

  // ---- the aggregate statement --------------------------------------------------------------

  lemma ExprWords(op: ArithOp)
    ensures PlainFragments([Raw("(")]) && PlainFragments([Raw(")")]) && PlainFragments([Raw(Sign(op))])
    ensures PlainFragments([Raw("/"), Raw("NULLIF"), Raw("(")]) && PlainFragments([Raw(","), Raw("0"), Raw(")"), Raw(")")])
  {
  }

  lemma LiteralFragments(v: real)
    ensures PlainFragments([Bound(Float(v))])
  {
  }

  lemma {:induction false} ExprFragments(model: Model, e: Expr)
    requires Resolves(model, e)
    ensures PlainFragments(InlineExpr(model, e))
    decreases e
  {
    hide PlainFragments, Column, ResolveFilterField;
    match e
    case Col(name) => ColumnFragments(model.table, ResolveFilterField(model, name).value.dbName);
    case Const(v) => LiteralFragments(v);
    case Bin(op, l, r) =>
      ExprFragments(model, l.value);
      ExprFragments(model, r.value);
      ExprWords(op);
      var a, b := InlineExpr(model, l.value), InlineExpr(model, r.value);
      Around([Raw("(")], a, [Raw("/"), Raw("NULLIF"), Raw("(")]);
      Around([Raw("(")] + a + [Raw("/"), Raw("NULLIF"), Raw("(")], b, [Raw(","), Raw("0"), Raw(")"), Raw(")")]);
      Around([Raw("(")], a, [Raw(Sign(op))]);
      Around([Raw("(")] + a + [Raw(Sign(op))], b, [Raw(")")]);
  }

  lemma CallWords(op: AggregateOp)
    ensures !op.UnknownOp? ==> PlainFragments(CallHead(op))
    ensures PlainFragments([Raw(")")]) && PlainFragments([Raw("COUNT(*)")])
  {
    hide PlainString;
    Words();
    FunctionWords();
  }

  lemma FunctionWords()
    ensures PlainString("COUNT") && PlainString("DISTINCT") && PlainString("SUM") && PlainString("AVG") && PlainString("MIN") && PlainString("MAX")
    ensures PlainString("COUNT(*)")
  {
  }

  lemma CallFragments(model: Model, exprs: Exprs, f: AggregateField)
    requires FieldCheck(model, exprs, f).None?
    ensures PlainFragments(InlineCall(model, exprs, f))
  {
    hide PlainFragments, Column, ResolveFilterField, CallHead, InlineExpr;
    CallWords(f.op);
    if !(f.op.Count? && f.field == "") {
      if f.field in exprs {
        ExprFragments(model, exprs[f.field]);
      } else {
        ColumnFragments(model.table, ResolveFilterField(model, f.field).value.dbName);
      }
      Around(CallHead(f.op), InlineOperand(model, exprs, f.field), [Raw(")")]);
    }
  }

  lemma AliasWords(name: string, op: Op, v: GoValue)
    ensures PlainFragments([Raw("AS"), Ident(name)]) && PlainFragments([Raw(SqlOp(op)), Bound(v)])
  {
  }

  lemma {:induction false} ItemsFragments(model: Model, exprs: Exprs, fs: seq<AggregateField>)
    requires AllFieldsKnown(model, exprs, fs)
    ensures AllPlainFragments(InlineItems(model, exprs, fs))
    decreases |fs|
  {
    hide PlainFragments, InlineCall, FieldCheck, Alias;
    if fs != [] {
      var last := fs[|fs| - 1];
      ItemsFragments(model, exprs, fs[..|fs| - 1]);
      CallFragments(model, exprs, last);
      AliasWords(Alias(model, exprs, last), Eq, Nil);
      PlainConcat(InlineCall(model, exprs, last), [Raw("AS"), Ident(Alias(model, exprs, last))]);
    }
  }

  lemma {:induction false} GroupColumnsFragments(model: Model, cols: seq<string>)
    ensures AllPlainFragments(GroupColumns(model, cols))
    decreases |cols|
  {
    hide PlainFragments, Column;
    if cols != [] {
      GroupColumnsFragments(model, cols[..|cols| - 1]);
      ColumnFragments(model.table, cols[|cols| - 1]);
    }
  }

  lemma {:induction false} HavingsFragments(model: Model, exprs: Exprs, select: seq<AggregateField>, hs: seq<HavingClause>)
    requires AllFieldsKnown(model, exprs, select) && HavingKnown(model, exprs, select, hs)
    ensures AllPlainFragments(InlineHavings(model, exprs, select, hs))
    decreases |hs|
  {
    hide PlainFragments, InlineCall, FieldCheck, AliasTaken;
    if hs != [] {
      var last := hs[|hs| - 1];
      HavingsFragments(model, exprs, select, hs[..|hs| - 1]);
      var f := FieldFor(model, exprs, select, last.alias);
      CallFragments(model, exprs, f);
      AliasWords("", last.op, last.value);
      PlainConcat(InlineCall(model, exprs, f), [Raw(SqlOp(last.op)), Bound(last.value)]);
    }
  }

  lemma OrderWords(tidy: string -> string, s: SortExpr)
    ensures PlainFragments([Ident(s.dbName)])
    ensures PlainFragments([Raw(match Direction(tidy, s.direction) case Some(d) => d case None => "ASC")])
  {
  }

  lemma {:induction false} OrdersFragments(model: Model, exprs: Exprs, select: seq<AggregateField>, tidy: string -> string, os: seq<SortExpr>)
    ensures AllPlainFragments(OrderParts(model, exprs, select, tidy, os))
    decreases |os|
  {
    hide PlainFragments, Column, AliasTaken, Direction;
    if os != [] {
      var last := os[|os| - 1];
      OrdersFragments(model, exprs, select, tidy, os[..|os| - 1]);
      ColumnFragments(model.table, last.dbName);
      OrderWords(tidy, last);
      var dir: Text := [Raw(match Direction(tidy, last.direction) case Some(d) => d case None => "ASC")];
      PlainConcat([Ident(last.dbName)], dir);
      PlainConcat(Column(model.table, last.dbName), dir);
    }
  }

  lemma ClauseWords(table: string, limit: int)
    ensures PlainFragments([Raw("SELECT")]) && PlainFragments([Raw("FROM"), Ident(table)]) && PlainFragments(LimitText(limit))
    ensures PlainFragments([Raw("WHERE")]) && PlainFragments([Raw("GROUP BY")]) && PlainFragments([Raw("HAVING")]) && PlainFragments([Raw("ORDER BY")])
  {
    hide PlainString;
    JsonWords();
    StatementWords();
    if limit > 0 { LimitWords(limit); }
  }

  lemma StatementWords()
    ensures PlainString("SELECT") && PlainString("FROM") && PlainString("GROUP BY") && PlainString("HAVING") && PlainString("ORDER BY")
    ensures PlainString("LIMIT")
  {
  }

  lemma LimitWords(limit: nat)
    ensures PlainString(Itoa(limit))
  {
    ItoaPlain(limit);
  }

  lemma PrefacedFragments(words: string, body: Text)
    requires PlainFragments(body) && PlainFragments([Raw(words)])
    ensures PlainFragments(Prefaced(words, body))
  {
    hide PlainFragments;
    PlainConcat([Raw(words)], body);
  }

  lemma StatementFragments(host: Host, model: Model, exprs: Exprs, q: AggregateQuery, tidy: string -> string, d: Driver)
    requires Buildable(model, exprs, q)
    ensures PlainFragments(InlineStatement(host, model, exprs, q, tidy, d))
  {
    hide PlainFragments, InlineItems, InlineHavings, OrderParts, GroupColumns, InlineFilters, Join, LimitText, AllFieldsKnown, HavingKnown, Prefaced;
    var items, groups, havings := InlineItems(model, exprs, q.select), GroupColumns(model, q.groupBy), InlineHavings(model, exprs, q.select, q.having);
    var orders := OrderParts(model, exprs, q.select, tidy, q.orderBy);
    ConstantFragments();
    ClauseWords(model.table, q.limit);
    ItemsFragments(model, exprs, q.select);
    GroupColumnsFragments(model, q.groupBy);
    HavingsFragments(model, exprs, q.select, q.having);
    OrdersFragments(model, exprs, q.select, tidy, q.orderBy);
    FiltersFragments(host, model, q.filters, d);
    PlainJoin(items + groups, COMMA);
    PlainJoin(groups, COMMA);
    PlainJoin(havings, AND);
    PlainJoin(orders, COMMA);
    var w, g := Prefaced("WHERE", InlineFilters(host, model, q.filters, d)), Prefaced("GROUP BY", Join(groups, COMMA));
    var h, o := Prefaced("HAVING", Join(havings, AND)), Prefaced("ORDER BY", Join(orders, COMMA));
    PrefacedFragments("WHERE", InlineFilters(host, model, q.filters, d));
    PrefacedFragments("GROUP BY", Join(groups, COMMA));
    PrefacedFragments("HAVING", Join(havings, AND));
    PrefacedFragments("ORDER BY", Join(orders, COMMA));
    Around([Raw("SELECT")], Join(items + groups, COMMA), [Raw("FROM"), Ident(model.table)]);
    var head: Text := [Raw("SELECT")] + Join(items + groups, COMMA) + [Raw("FROM"), Ident(model.table)];
    Around(head, w, g);
    Around(head + w + g, h, o);
    PlainConcat(head + w + g + h + o, LimitText(q.limit));
  }

  /** The same of the whole aggregate statement. */
  lemma StatementQuestionMarks(host: Host, model: Model, exprs: Exprs, q: AggregateQuery, tidy: string -> string, d: Driver,
                               args: seq<GoValue>, t: Text)
    requires Buildable(model, exprs, q) && (d.SQLite? ==> AllFit(host, q.filters, d))
    requires TextDone(d, [], args, AllFit(host, q.filters, d), TotalSurplus(host, q.filters), t,
                      InlineStatement(host, model, exprs, q, tidy, d))
    ensures QuestionMarks(Show(t), false) == if d.SQLite? then |args| else 0
  {
    hide InlineStatement, PlainFragments, AllFit, TotalSurplus, Show, QuestionMarks;
    StatementFragments(host, model, exprs, q, tidy, d);
    PlainResolve(t, args, 0);
    HolesAreTheQuestionMarks(t);
  }
}
