/** One aggregate statement to the letter. */
module AggregateSample {
  import opened Wrappers
  import opened SqlText
  import opened Filters
  import opened FilterBuild
  import opened FilterOperators
  import opened AggregateExpr
  import opened Aggregate
  import opened AggregateBuild
  import opened AggregateStatement
  import FilterDrivers

  const NO_EXPRS: Exprs := map[]

  const EVERY_OPERATOR := [
    AggregateField(Count, "", ""),
    AggregateField(CountDistinct, "title", ""),
    AggregateField(Sum, "price", "total"),
    AggregateField(Avg, "price", ""),
    AggregateField(Min, "price", ""),
    AggregateField(Max, "price", "")]

  const TOTALS := AggregateQuery(EVERY_OPERATOR, ["title"], [Some(DEAR)], [HavingClause("total", Gte, Int(50))],
                                 [SortExpr("total", "desc"), SortExpr("title", "")], 25)

  const OF_PRICE: Text := [Ident("items"), Raw("."), Ident("price"), Raw(")")]
  const OF_TITLE: Text := [Ident("items"), Raw("."), Ident("title")]

  lemma SampleFields()
    ensures ResolveFilterField(ITEMS, "price") == Some(ITEMS.fields[0]) && ResolveFilterField(ITEMS, "title") == Some(ITEMS.fields[2])
    ensures FieldByDBName(ITEMS.fields, "title") == Some(ITEMS.fields[2])
  {
    var fields := ITEMS.fields;
    assert fields[1..][1..] == fields[2..];
    assert FieldByDBName(fields[2..], "title") == Some(fields[2]);
    assert FieldByDBName(fields[1..], "title") == Some(fields[2]);
  }

  lemma SampleAliases()
    ensures var fs := EVERY_OPERATOR;
            && Alias(ITEMS, NO_EXPRS, fs[0]) == "count" && Alias(ITEMS, NO_EXPRS, fs[1]) == "count_distinct_title"
            && Alias(ITEMS, NO_EXPRS, fs[2]) == "total" && Alias(ITEMS, NO_EXPRS, fs[3]) == "avg_price"
            && Alias(ITEMS, NO_EXPRS, fs[4]) == "min_price" && Alias(ITEMS, NO_EXPRS, fs[5]) == "max_price"
  {
    hide ResolveFilterField;
    SampleFields();
  }

  lemma SampleKnown()
    ensures AllFieldsKnown(ITEMS, NO_EXPRS, EVERY_OPERATOR)
  {
    hide ResolveFilterField;
    SampleFields();
  }

  lemma PriceItem(f: AggregateField)
    requires f.field == "price" && !f.op.UnknownOp? && !f.op.CountDistinct?
    ensures FieldCheck(ITEMS, NO_EXPRS, f).None?
    ensures InlineItem(ITEMS, NO_EXPRS, f) == CallHead(f.op) + OF_PRICE + [Raw("AS"), Ident(Alias(ITEMS, NO_EXPRS, f))]
    ensures InlineCall(ITEMS, NO_EXPRS, f) == CallHead(f.op) + OF_PRICE
  {
    hide ResolveFilterField, Alias, CallHead;
    SampleFields();
  }

  lemma TitleItem()
    ensures FieldCheck(ITEMS, NO_EXPRS, EVERY_OPERATOR[0]).None? && FieldCheck(ITEMS, NO_EXPRS, EVERY_OPERATOR[1]).None?
    ensures InlineItem(ITEMS, NO_EXPRS, EVERY_OPERATOR[0]) == [Raw("COUNT(*)"), Raw("AS"), Ident(Alias(ITEMS, NO_EXPRS, EVERY_OPERATOR[0]))]
    ensures InlineItem(ITEMS, NO_EXPRS, EVERY_OPERATOR[1])
            == [Raw("COUNT"), Raw("("), Raw("DISTINCT"), Ident("items"), Raw("."), Ident("title"), Raw(")"), Raw("AS"),
                Ident(Alias(ITEMS, NO_EXPRS, EVERY_OPERATOR[1]))]
  {
    hide ResolveFilterField, Alias;
    SampleFields();
  }

  lemma SampleCalls()
    ensures AllFieldsKnown(ITEMS, NO_EXPRS, EVERY_OPERATOR)
    ensures InlineItem(ITEMS, NO_EXPRS, EVERY_OPERATOR[0]) == [Raw("COUNT(*)"), Raw("AS"), Ident("count")]
    ensures InlineItem(ITEMS, NO_EXPRS, EVERY_OPERATOR[1])
            == [Raw("COUNT"), Raw("("), Raw("DISTINCT"), Ident("items"), Raw("."), Ident("title"), Raw(")"), Raw("AS"), Ident("count_distinct_title")]
    ensures InlineItem(ITEMS, NO_EXPRS, EVERY_OPERATOR[2])
            == [Raw("SUM"), Raw("("), Ident("items"), Raw("."), Ident("price"), Raw(")"), Raw("AS"), Ident("total")]
    ensures InlineItem(ITEMS, NO_EXPRS, EVERY_OPERATOR[3])
            == [Raw("AVG"), Raw("("), Ident("items"), Raw("."), Ident("price"), Raw(")"), Raw("AS"), Ident("avg_price")]
    ensures InlineItem(ITEMS, NO_EXPRS, EVERY_OPERATOR[4])
            == [Raw("MIN"), Raw("("), Ident("items"), Raw("."), Ident("price"), Raw(")"), Raw("AS"), Ident("min_price")]
    ensures InlineItem(ITEMS, NO_EXPRS, EVERY_OPERATOR[5])
            == [Raw("MAX"), Raw("("), Ident("items"), Raw("."), Ident("price"), Raw(")"), Raw("AS"), Ident("max_price")]
    ensures InlineCall(ITEMS, NO_EXPRS, EVERY_OPERATOR[2]) == [Raw("SUM"), Raw("(")] + OF_PRICE
  {
    hide ResolveFilterField, Alias, FieldCheck, AllFieldsKnown;
    SampleFields();
    SampleAliases();
    SampleKnown();
    PriceItem(EVERY_OPERATOR[2]);
    PriceItem(EVERY_OPERATOR[3]);
    PriceItem(EVERY_OPERATOR[4]);
    PriceItem(EVERY_OPERATOR[5]);
    TitleItem();
  }

  lemma SampleDistinct()
    ensures AliasesDistinct(ITEMS, NO_EXPRS, EVERY_OPERATOR)
  {
    hide Alias;
    SampleAliases();
    assert "count"[0] != "total"[0] && "avg_price"[0] != "min_price"[0] && "avg_price"[0] != "max_price"[0] && "min_price"[1] != "max_price"[1];
  }

  lemma SampleAccepted(tidy: string -> string)
    requires tidy("") == "" && tidy("desc") == "desc"
    ensures WellFormed(ITEMS, NO_EXPRS, TOTALS, tidy) && Buildable(ITEMS, NO_EXPRS, TOTALS)
  {
    hide Alias, ResolveFilterField, FieldByDBName, FieldCheck;
    SampleFields();
    SampleCalls();
    SampleDistinct();
    SampleAliases();
    assert Alias(ITEMS, NO_EXPRS, TOTALS.select[2]) == "total";
    assert AliasTaken(ITEMS, NO_EXPRS, TOTALS.select, "total");
    assert "title" in TOTALS.groupBy;
  }

  lemma ItemsSnoc(fs: seq<AggregateField>, f: AggregateField)
    requires AllFieldsKnown(ITEMS, NO_EXPRS, fs) && FieldCheck(ITEMS, NO_EXPRS, f).None?
    ensures AllFieldsKnown(ITEMS, NO_EXPRS, fs + [f])
    ensures InlineItems(ITEMS, NO_EXPRS, fs + [f]) == InlineItems(ITEMS, NO_EXPRS, fs) + [InlineItem(ITEMS, NO_EXPRS, f)]
  {
    hide FieldCheck, InlineItem;
    assert (fs + [f])[..|fs|] == fs;
  }

  lemma SampleItems()
    ensures AllFieldsKnown(ITEMS, NO_EXPRS, EVERY_OPERATOR)
    ensures InlineItems(ITEMS, NO_EXPRS, EVERY_OPERATOR)
            == [InlineItem(ITEMS, NO_EXPRS, EVERY_OPERATOR[0]), InlineItem(ITEMS, NO_EXPRS, EVERY_OPERATOR[1]),
                InlineItem(ITEMS, NO_EXPRS, EVERY_OPERATOR[2]), InlineItem(ITEMS, NO_EXPRS, EVERY_OPERATOR[3]),
                InlineItem(ITEMS, NO_EXPRS, EVERY_OPERATOR[4]), InlineItem(ITEMS, NO_EXPRS, EVERY_OPERATOR[5])]
  {
    hide FieldCheck, InlineItem, InlineItems;
    SampleCalls();
    var fs := EVERY_OPERATOR;
    assert InlineItems(ITEMS, NO_EXPRS, []) == [] by { NoItems(); }
    ItemsSnoc([], fs[0]);
    ItemsSnoc([] + [fs[0]], fs[1]);
    ItemsSnoc([] + [fs[0]] + [fs[1]], fs[2]);
    ItemsSnoc([] + [fs[0]] + [fs[1]] + [fs[2]], fs[3]);
    ItemsSnoc([] + [fs[0]] + [fs[1]] + [fs[2]] + [fs[3]], fs[4]);
    ItemsSnoc([] + [fs[0]] + [fs[1]] + [fs[2]] + [fs[3]] + [fs[4]], fs[5]);
    assert [] + [fs[0]] + [fs[1]] + [fs[2]] + [fs[3]] + [fs[4]] + [fs[5]] == fs;
  }

  lemma NoItems()
    ensures InlineItems(ITEMS, NO_EXPRS, []) == []
  {
  }

  const SELECTED: Text :=
    [Raw("COUNT(*)"), Raw("AS"), Ident("count")] + [Raw(",")]
    + [Raw("COUNT"), Raw("("), Raw("DISTINCT"), Ident("items"), Raw("."), Ident("title"), Raw(")"), Raw("AS"), Ident("count_distinct_title")] + [Raw(",")]
    + [Raw("SUM"), Raw("("), Ident("items"), Raw("."), Ident("price"), Raw(")"), Raw("AS"), Ident("total")] + [Raw(",")]
    + [Raw("AVG"), Raw("("), Ident("items"), Raw("."), Ident("price"), Raw(")"), Raw("AS"), Ident("avg_price")] + [Raw(",")]
    + [Raw("MIN"), Raw("("), Ident("items"), Raw("."), Ident("price"), Raw(")"), Raw("AS"), Ident("min_price")] + [Raw(",")]
    + [Raw("MAX"), Raw("("), Ident("items"), Raw("."), Ident("price"), Raw(")"), Raw("AS"), Ident("max_price")] + [Raw(",")]
    + [Ident("items"), Raw("."), Ident("title")]

  const TOTALS_SQL: Text :=
    [Raw("SELECT")] + SELECTED
    + [Raw("FROM"), Ident("items")]
    + [Raw("WHERE"), Ident("items"), Raw("."), Ident("price"), Raw(">"), Bound(Int(100))]
    + [Raw("GROUP BY"), Ident("items"), Raw("."), Ident("title")]
    + [Raw("HAVING"), Raw("SUM"), Raw("("), Ident("items"), Raw("."), Ident("price"), Raw(")"), Raw(">="), Bound(Int(50))]
    + [Raw("ORDER BY"), Ident("total"), Raw("DESC"), Raw(","), Ident("items"), Raw("."), Ident("title"), Raw("ASC")]
    + [Raw("LIMIT"), Raw("25")]

  lemma SampleSelected()
    ensures Join(InlineItems(ITEMS, NO_EXPRS, EVERY_OPERATOR) + GroupColumns(ITEMS, ["title"]), COMMA) == SELECTED
  {
    hide InlineItem, InlineItems, Join;
    SampleCalls();
    SampleItems();
    SampleGroup();
    var fs := EVERY_OPERATOR;
    var c0, c1, c2, c3, c4, c5 := InlineItem(ITEMS, NO_EXPRS, fs[0]), InlineItem(ITEMS, NO_EXPRS, fs[1]), InlineItem(ITEMS, NO_EXPRS, fs[2]),
                                  InlineItem(ITEMS, NO_EXPRS, fs[3]), InlineItem(ITEMS, NO_EXPRS, fs[4]), InlineItem(ITEMS, NO_EXPRS, fs[5]);
    SevenJoined(c0, c1, c2, c3, c4, c5, OF_TITLE);
    assert InlineItems(ITEMS, NO_EXPRS, fs) + [OF_TITLE] == [c0, c1, c2, c3, c4, c5, OF_TITLE];
  }

  lemma SevenJoined(a: Text, b: Text, c: Text, d: Text, e: Text, f: Text, g: Text)
    ensures Join([a, b, c, d, e, f, g], COMMA) == a + COMMA + b + COMMA + c + COMMA + d + COMMA + e + COMMA + f + COMMA + g
  {
    JoinSnoc([], COMMA, a);
    JoinSnoc([a], COMMA, b);
    JoinSnoc([a, b], COMMA, c);
    JoinSnoc([a, b, c], COMMA, d);
    JoinSnoc([a, b, c, d], COMMA, e);
    JoinSnoc([a, b, c, d, e], COMMA, f);
    JoinSnoc([a, b, c, d, e, f], COMMA, g);
    assert [a] + [b] == [a, b] && [a, b] + [c] == [a, b, c] && [a, b, c] + [d] == [a, b, c, d];
    assert [a, b, c, d] + [e] == [a, b, c, d, e] && [a, b, c, d, e] + [f] == [a, b, c, d, e, f];
    assert [a, b, c, d, e, f] + [g] == [a, b, c, d, e, f, g];
  }

  lemma SampleGroup()
    ensures GroupColumns(ITEMS, ["title"]) == [OF_TITLE] && Join(GroupColumns(ITEMS, ["title"]), COMMA) == OF_TITLE
  {
    assert ["title"][..0] == [] && GroupColumns(ITEMS, []) == [];
  }

  lemma SampleWhere(d: Driver)
    ensures InlineFilters(AS_IT_IS, ITEMS, [Some(DEAR)], d) == [Ident("items"), Raw("."), Ident("price"), Raw(">"), Bound(Int(100))]
  {
    hide InlineCond, InlineFilters;
    SampleConds(d);
    assert DEAR.group == 0;
    FilterDrivers.LoneInline(AS_IT_IS, ITEMS, DEAR, d);
  }

  lemma SampleHaving()
    ensures HavingKnown(ITEMS, NO_EXPRS, EVERY_OPERATOR, TOTALS.having) && AllFieldsKnown(ITEMS, NO_EXPRS, EVERY_OPERATOR)
    ensures Join(InlineHavings(ITEMS, NO_EXPRS, EVERY_OPERATOR, TOTALS.having), AND)
            == [Raw("SUM"), Raw("(")] + OF_PRICE + [Raw(">="), Bound(Int(50))]
  {
    hide Alias, InlineCall, FieldFor;
    SampleCalls();
    SampleAliases();
    SampleNamed();
    var hs := TOTALS.having;
    assert hs[..0] == [] && |hs| == 1;
    assert InlineHavings(ITEMS, NO_EXPRS, EVERY_OPERATOR, hs) == [InlineHaving(ITEMS, NO_EXPRS, EVERY_OPERATOR, hs[0])];
  }

  /** The alias names the sum. */
  lemma SampleNamed()
    ensures AliasTaken(ITEMS, NO_EXPRS, EVERY_OPERATOR, "total") && FieldFor(ITEMS, NO_EXPRS, EVERY_OPERATOR, "total") == EVERY_OPERATOR[2]
  {
    hide Alias;
    SampleAliases();
    assert Alias(ITEMS, NO_EXPRS, EVERY_OPERATOR[2]) == "total";
    SampleDistinct();
    var f := FieldFor(ITEMS, NO_EXPRS, EVERY_OPERATOR, "total");
    var i :| 0 <= i < 6 && EVERY_OPERATOR[i] == f;
    assert i == 2;
  }

  lemma SampleOrder(tidy: string -> string)
    requires tidy("") == "" && tidy("desc") == "desc"
    ensures Join(OrderParts(ITEMS, NO_EXPRS, EVERY_OPERATOR, tidy, TOTALS.orderBy), COMMA)
            == [Ident("total"), Raw("DESC"), Raw(","), Ident("items"), Raw("."), Ident("title"), Raw("ASC")]
  {
    hide Alias, AliasTaken;
    SampleNamed();
    NoSuchAlias();
    var os := TOTALS.orderBy;
    assert os[..1] == [os[0]] && [os[0]][..0] == [];
    var a, b := OrderPart(ITEMS, NO_EXPRS, EVERY_OPERATOR, tidy, os[0]), OrderPart(ITEMS, NO_EXPRS, EVERY_OPERATOR, tidy, os[1]);
    assert OrderParts(ITEMS, NO_EXPRS, EVERY_OPERATOR, tidy, [os[0]]) == [a];
    assert OrderParts(ITEMS, NO_EXPRS, EVERY_OPERATOR, tidy, os) == [a, b];
    PairJoins(a, b, COMMA);
  }

  lemma NoSuchAlias()
    ensures !AliasTaken(ITEMS, NO_EXPRS, EVERY_OPERATOR, "title")
  {
    hide Alias;
    SampleAliases();
    assert "title"[0] != "count"[0] && "title"[1] != "total"[1];
    assert |"title"| != |"count_distinct_title"| && |"title"| != |"avg_price"|;
  }

  lemma TwentyFive()
    ensures LimitText(25) == [Raw("LIMIT"), Raw("25")]
  {
    assert 25 / 10 == 2 && 25 % 10 == 5 && Itoa(2) == "2" && Itoa(5) == "5";
    assert Itoa(25) == "2" + "5" && "2" + "5" == "25";
  }

  lemma SampleStatement(tidy: string -> string, d: Driver)
    requires tidy("") == "" && tidy("desc") == "desc"
    ensures Buildable(ITEMS, NO_EXPRS, TOTALS)
    ensures InlineStatement(AS_IT_IS, ITEMS, NO_EXPRS, TOTALS, tidy, d) == TOTALS_SQL
  {
    hide InlineItems, InlineFilters, InlineHavings, OrderParts, GroupColumns, Join, LimitText, AllFieldsKnown, HavingKnown;
    SampleHaving();
    SampleSelected();
    SampleWhere(d);
    SampleGroup();
    SampleOrder(tidy);
    TwentyFive();
    assert [Raw("HAVING")] + ([Raw("SUM"), Raw("(")] + OF_PRICE + [Raw(">="), Bound(Int(50))])
           == [Raw("HAVING"), Raw("SUM"), Raw("("), Ident("items"), Raw("."), Ident("price"), Raw(")"), Raw(">="), Bound(Int(50))];
  }

  /** Every operator once, grouped by title over the dear items, the totals from 50 on,
      the greatest first, 25 of them: the statement with its arguments in place, token by
      token, on either driver. */
  method BuildTotals(tidy: string -> string, d: Driver) returns (t: Text, args: seq<GoValue>)
    requires tidy("") == "" && tidy("desc") == "desc"
    ensures Resolve(t, args, 0) == TOTALS_SQL
  {
    hide *;
    var meta := new ModelMeta(ITEMS);
    SampleAccepted(tidy);
    NoScope();
    var r := BuildAggregate(AS_IT_IS, meta, TOTALS, [], tidy, d);
    t, args := r.value.0, r.value.1;
    SampleStatement(tidy, d);
    SampleDone(tidy, d, t, args);
  }

  lemma NoScope()
    ensures NO_EXPRS == map[]
    ensures TOTALS.(filters := TOTALS.filters + []) == TOTALS
  {
  }

  lemma SampleDone(tidy: string -> string, d: Driver, t: Text, args: seq<GoValue>)
    requires Buildable(ITEMS, NO_EXPRS, TOTALS)
    requires TextDone(d, [], args, AllFit(AS_IT_IS, TOTALS.filters, d), TotalSurplus(AS_IT_IS, TOTALS.filters), t,
                      InlineStatement(AS_IT_IS, ITEMS, NO_EXPRS, TOTALS, tidy, d))
    ensures Resolve(t, args, 0) == InlineStatement(AS_IT_IS, ITEMS, NO_EXPRS, TOTALS, tidy, d)
  {
    hide InlineStatement, TotalSurplus, Resolve, Covers, Within, Ranged, Lined;
  }
}
