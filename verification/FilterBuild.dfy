/** Assembling filters into a WHERE body: one AND-ed part per ungrouped filter, one
    parenthesised OR per group, groups in ascending order. */
module FilterBuild {
  import opened Wrappers
  import opened SqlText
  import opened Filters

  // ---- one filter ---------------------------------------------------------------------

  lemma ColumnPlain(table: string, col: string)
    ensures NoHoles(Column(table, col)) && Holes(Column(table, col)) == 0
  {
    var c := Column(table, col);
    assert Holes(c[1..]) == 0 by { assert Holes(c[1..][1..]) == 0; }
  }

  lemma PlainColumnReady(p: Binder, table: string, col: string)
    ensures ColumnReady(p, p.args, Column(table, col), Column(table, col))
    ensures Holes(Column(table, col)) == 0
  {
    ColumnPlain(table, col);
    PlainRenders(p.driver, p.args, Column(table, col));
  }

  /** The left-hand side of a locale or nested predicate. */
  method FilterColumn(model: Model, f: Filter, p: Binder) returns (col: Text)
    requires f.isLocale || f.isNested
    modifies p
    ensures ColumnReady(p, old(p.args), col, InlineColumn(model, f, p.driver))
    ensures |p.args| == |old(p.args)| + if f.isLocale then 1 else 0
  {
    if f.isLocale {
      PlainColumnReady(p, model.table, f.field);
      var base := Column(model.table, f.field);
      ghost var a := p.args;
      if p.driver == Postgres {
        col := OneArgument(base, [], [Raw("->>")], Str(f.localeKey), [Raw("::text")], p, a, base);
        assert [] + base + [Raw("->>")] + [Bound(Str(f.localeKey))] + [Raw("::text")] == InlineColumn(model, f, Postgres);
      } else {
        col := OneArgument(base, [Raw("json_extract"), Raw("(")], [Raw(",")], Str("$." + f.localeKey), [Raw(")")], p, a, base);
        assert [Raw("json_extract"), Raw("(")] + base + [Raw(",")] + [Bound(Str("$." + f.localeKey))] + [Raw(")")]
               == InlineColumn(model, f, SQLite);
      }
    } else {
      PlainColumnReady(p, f.relationKey, f.nestedField);
      col := Column(f.relationKey, f.nestedField);
    }
  }

  method FieldCond(model: Model, col: Text, sign: string, valueField: string) returns (t: Text)
    ensures t == match ResolveFilterField(model, valueField)
                 case None => FALSE_PREDICATE
                 case Some(rhs) => col + [Raw(sign)] + Column(model.table, rhs.dbName)
  {
    var rhs := ResolveFilterField(model, valueField);
    if rhs.None? { return FALSE_PREDICATE; }
    t := col + [Raw(sign)] + Column(model.table, rhs.value.dbName);
  }

  method JsonArrayHasPredicate(host: Host, col: Text, val: GoValue, p: Binder) returns (t: Option<Text>)
    requires ColumnReady(p, p.args, col, col) && Holes(col) == 0
    modifies p
    ensures t.Some? <==> InlineArrayHas(host, col, val, p.driver).Some?
    ensures t.Some? ==> Renders(p.driver, old(p.args), p.args, t.value, InlineArrayHas(host, col, val, p.driver).value)
    ensures t.None? ==> p.args == old(p.args)
  {
    var lit := host.marshal(val);
    if lit.None? { return None; }
    ghost var a := p.args;
    var text;
    if p.driver == Postgres {
      text := OneArgument(col, [], [Raw("@>")], Str(lit.value), [Raw("::jsonb")], p, a, col);
      assert [] + col + [Raw("@>")] + [Bound(Str(lit.value))] + [Raw("::jsonb")] == InlineArrayHas(host, col, val, Postgres).value;
    } else {
      var head: Text := [Raw("EXISTS"), Raw("("), Raw("SELECT 1 FROM json_each"), Raw("(")];
      var mid: Text := [Raw(")"), Raw("WHERE"), Raw("json_quote"), Raw("("), Ident("json_each"), Raw("."), Ident("value"), Raw(")"), Raw("=")];
      text := OneArgument(col, head, mid, Str(lit.value), [Raw(")")], p, a, col);
      assert head + col + mid + [Bound(Str(lit.value))] + [Raw(")")] == InlineArrayHas(host, col, val, SQLite).value;
    }
    t := Some(text);
  }

  method JsonObjectHasPredicate(host: Host, col: Text, val: GoValue, p: Binder) returns (t: Option<Text>)
    requires ColumnReady(p, p.args, col, col) && Holes(col) == 0
    modifies p
    ensures t.Some? <==> InlineObjectHas(host, col, val, p.driver).Some?
    ensures t.Some? ==> Renders(p.driver, old(p.args), p.args, t.value, InlineObjectHas(host, col, val, p.driver).value)
    ensures t.None? ==> p.args == old(p.args)
  {
    hide Renders;
    var pair := CutPair(host.sprint(val));
    if pair.None? || pair.value.0 == "" || !JsonPathSafeKey(pair.value.0) { return None; }
    var key, want := pair.value.0, pair.value.1;
    ghost var a := p.args;
    if p.driver == Postgres {
      var lit := host.marshalPair(key, want);
      if lit.None? { return None; }
      var text := OneArgument(col, [], [Raw("@>")], Str(lit.value), [Raw("::jsonb")], p, a, col);
      assert [] + col + [Raw("@>")] + [Bound(Str(lit.value))] + [Raw("::jsonb")] == InlineObjectHas(host, col, val, Postgres).value;
      return Some(text);
    }
    var lit := host.marshal(Str(want));
    if lit.None? { return None; }
    var path := Str("$.\"" + key + "\"");
    var head: Text := [Raw("json_quote"), Raw("("), Raw("json_extract"), Raw("(")];
    var mid: Text := [Raw(")"), Raw(")"), Raw("=")];
    var left := OneArgument(col, head, [Raw(",")], path, mid, p, a, col);
    ghost var b := p.args;
    var ph := p.Add(Str(lit.value));
    ghost var ileft := head + col + [Raw(",")] + [Bound(path)] + mid;
    RendersConcat(p.driver, a, b, p.args, left, ileft, ph, [Bound(Str(lit.value))]);
    assert ileft + [Bound(Str(lit.value))] == InlineObjectHas(host, col, val, SQLite).value;
    t := Some(left + ph);
  }

  method JsonHasCond(host: Host, col: Text, fm: Field, op: Op, val: GoValue, p: Binder) returns (t: Text)
    requires ColumnReady(p, p.args, col, col) && Holes(col) == 0
    modifies p
    ensures Renders(p.driver, old(p.args), p.args, t, InlineJsonHas(host, col, fm, op, val, p.driver))
  {
    var pred: Option<Text> := None;
    if fm.jsonArray {
      pred := JsonArrayHasPredicate(host, col, val, p);
    } else if fm.jsonObject {
      pred := JsonObjectHasPredicate(host, col, val, p);
    }
    if pred.None? {
      PlainRenders(p.driver, p.args, FALSE_PREDICATE);
      return FALSE_PREDICATE;
    }
    t := pred.value;
    if op == NotHas {
      ghost var inline := InlineHas(host, col, fm, val, p.driver).value;
      Prefixed(p.driver, old(p.args), p.args, [Raw("NOT"), Raw("(")], t, inline);
      Suffixed(p.driver, old(p.args), p.args, [Raw("NOT"), Raw("(")] + t, [Raw("NOT"), Raw("(")] + inline, [Raw(")")]);
      t := [Raw("NOT"), Raw("(")] + t + [Raw(")")];
    }
  }

  /** Renders one filter as a predicate. */
  method FilterCond(host: Host, model: Model, f: Filter, p: Binder) returns (t: Text)
    modifies p
    ensures TextDone(p.driver, old(p.args), p.args, Fits(host, p.driver, f), Surplus(host, f), t, InlineCond(host, model, f, p.driver))
  {
    hide Renders, TextDone, ColumnUses;
    ghost var a := p.args;
    if f.isLocale || f.isNested {
      var col := FilterColumn(model, f, p);
      ghost var icol := InlineColumn(model, f, p.driver);
      t := FilterPredicate(host, col, f.op, f.value, p, a, icol);
      return;
    }
    var fm := ResolveFilterField(model, f.field);
    if fm.None? {
      PlainRenders(p.driver, a, FALSE_PREDICATE);
      RenderedDone(p.driver, a, a, FALSE_PREDICATE, FALSE_PREDICATE);
      return FALSE_PREDICATE;
    }
    var col := Column(model.table, fm.value.dbName);
    PlainColumnReady(p, model.table, fm.value.dbName);
    if FieldComparisonOp(f.op).Some? {
      t := FieldCond(model, col, FieldComparisonOp(f.op).value, f.valueField);
      PlainRenders(p.driver, a, t);
      RenderedDone(p.driver, a, a, t, t);
      return;
    }
    if f.op == Has || f.op == NotHas {
      t := JsonHasCond(host, col, fm.value, f.op, f.value, p);
      RenderedDone(p.driver, a, p.args, t, InlineCond(host, model, f, p.driver));
      return;
    }
    var val := host.normalize(fm.value.kind, f.op, f.value);
    t := FilterPredicate(host, col, f.op, val, p, a, col);
  }

  // ---- the partition ------------------------------------------------------------------

  type FilterList = seq<Option<Filter>>

  function Ungrouped(fs: FilterList): seq<Filter> {
    if fs == [] then []
    else Ungrouped(fs[..|fs| - 1]) + match fs[|fs| - 1] case None => [] case Some(f) => if f.group <= 0 then [f] else []
  }

  function Members(fs: FilterList, g: int): seq<Filter> {
    if fs == [] then []
    else Members(fs[..|fs| - 1], g) + match fs[|fs| - 1] case None => [] case Some(f) => if f.group == g then [f] else []
  }

  /** The group ids of a list, in the order they first appear. */
  function FirstSeen(fs: FilterList): seq<int> {
    if fs == [] then []
    else
      var seen := FirstSeen(fs[..|fs| - 1]);
      match fs[|fs| - 1]
      case None => seen
      case Some(f) => if f.group <= 0 || f.group in seen then seen else seen + [f.group]
  }

  function Insert(x: int, s: seq<int>): seq<int> {
    if s == [] || x <= s[0] then [x] + s else [s[0]] + Insert(x, s[1..])
  }

  /** sort.Ints */
  function SortInts(s: seq<int>): seq<int> {
    if s == [] then [] else Insert(s[0], SortInts(s[1..]))
  }

  function GroupOrder(fs: FilterList): seq<int> {
    SortInts(FirstSeen(fs))
  }

  lemma {:induction false} InsertSorts(x: int, s: seq<int>)
    requires forall i, j :: 0 <= i < j < |s| ==> s[i] <= s[j]
    ensures |Insert(x, s)| == |s| + 1
    ensures forall i, j :: 0 <= i < j < |s| + 1 ==> Insert(x, s)[i] <= Insert(x, s)[j]
    ensures forall y :: y in Insert(x, s) <==> y == x || y in s
  {
    if s != [] && !(x <= s[0]) {
      InsertSorts(x, s[1..]);
      var rest := Insert(x, s[1..]);
      assert forall y :: y in rest ==> s[0] <= y by {
        forall y | y in rest ensures s[0] <= y {
          if y != x { var i :| 0 <= i < |s[1..]| && s[1..][i] == y; assert s[i + 1] == y; }
        }
      }
      forall i, j | 0 <= i < j < |s| + 1 ensures ([s[0]] + rest)[i] <= ([s[0]] + rest)[j] {
        if i == 0 { assert ([s[0]] + rest)[j] in rest; }
      }
      assert s == [s[0]] + s[1..];
    } else {
      assert Insert(x, s) == [x] + s;
      forall i, j | 0 <= i < j < |s| + 1 ensures ([x] + s)[i] <= ([x] + s)[j] {
        if i == 0 && j > 1 { assert s[0] <= s[j - 1]; }
      }
    }
  }

  /** Groups come out ascending, and they are exactly the ones that were seen. */
  lemma {:induction false} SortIntsSorts(s: seq<int>)
    ensures forall i, j :: 0 <= i < j < |SortInts(s)| ==> SortInts(s)[i] <= SortInts(s)[j]
    ensures forall y :: y in SortInts(s) <==> y in s
  {
    if s != [] {
      SortIntsSorts(s[1..]);
      InsertSorts(s[0], SortInts(s[1..]));
      assert s == [s[0]] + s[1..];
    }
  }

  lemma {:induction false} SeenIffMembers(fs: FilterList, g: int)
    ensures g in FirstSeen(fs) <==> g > 0 && Members(fs, g) != []
  {
    if fs != [] { SeenIffMembers(fs[..|fs| - 1], g); }
  }

  /** Splits filters into the ungrouped ones and the OR groups; nil entries are dropped. */
  method PartitionFilters(filters: FilterList) returns (ungrouped: seq<Filter>, groups: map<int, seq<Filter>>, order: seq<int>)
    ensures ungrouped == Ungrouped(filters) && order == GroupOrder(filters)
    ensures forall g :: g in order ==> g in groups && groups[g] == Members(filters, g) && groups[g] != []
  {
    ungrouped, groups, order := [], map[], [];
    var i := 0;
    while i < |filters|
      invariant 0 <= i <= |filters|
      invariant ungrouped == Ungrouped(filters[..i]) && order == FirstSeen(filters[..i])
      invariant forall g :: g in groups <==> g in order
      invariant forall g :: g in groups ==> groups[g] == Members(filters[..i], g)
    {
      assert filters[..i + 1][..i] == filters[..i];
      forall g ensures g in FirstSeen(filters[..i]) <==> g > 0 && Members(filters[..i], g) != [] { SeenIffMembers(filters[..i], g); }
      if filters[i].Some? {
        var f := filters[i].value;
        if f.group <= 0 {
          ungrouped := ungrouped + [f];
        } else {
          if f.group !in groups { order := order + [f.group]; }
          groups := groups[f.group := (if f.group in groups then groups[f.group] else []) + [f]];
        }
      }
      i := i + 1;
    }
    assert filters[..i] == filters;
    SortIntsSorts(order);
    forall g | g in order ensures Members(filters, g) != [] { SeenIffMembers(filters, g); }
    order := SortInts(order);
  }

  // ---- the whole clause --------------------------------------------------------------------

  function Conds(host: Host, model: Model, fs: seq<Filter>, d: Driver): seq<Text> {
    if fs == [] then [] else Conds(host, model, fs[..|fs| - 1], d) + [InlineCond(host, model, fs[|fs| - 1], d)]
  }

  function InlineGroup(host: Host, model: Model, fs: seq<Filter>, d: Driver): Text
    requires fs != []
  {
    if |fs| == 1 then InlineCond(host, model, fs[0], d)
    else [Raw("(")] + Join(Conds(host, model, fs, d), OR) + [Raw(")")]
  }

  function GroupConds(host: Host, model: Model, fs: FilterList, order: seq<int>, d: Driver): seq<Text>
    requires forall g :: g in order ==> Members(fs, g) != []
  {
    if order == [] then []
    else GroupConds(host, model, fs, order[..|order| - 1], d) + [InlineGroup(host, model, Members(fs, order[|order| - 1]), d)]
  }

  ghost predicate GroupsNonEmpty(fs: FilterList, order: seq<int>) {
    forall g :: g in order ==> Members(fs, g) != []
  }

  lemma OrderNonEmpty(fs: FilterList)
    ensures GroupsNonEmpty(fs, GroupOrder(fs))
  {
    SortIntsSorts(FirstSeen(fs));
    forall g | g in GroupOrder(fs) ensures Members(fs, g) != [] { SeenIffMembers(fs, g); }
  }

  /** The AND-ed parts of the clause, values in place. */
  function InlineParts(host: Host, model: Model, fs: FilterList, d: Driver): seq<Text> {
    OrderNonEmpty(fs);
    Conds(host, model, Ungrouped(fs), d) + GroupConds(host, model, fs, GroupOrder(fs), d)
  }

  function InlineFilters(host: Host, model: Model, fs: FilterList, d: Driver): Text {
    Join(InlineParts(host, model, fs, d), AND)
  }

  function SumSurplus(host: Host, fs: seq<Filter>): int {
    if fs == [] then 0 else SumSurplus(host, fs[..|fs| - 1]) + Surplus(host, fs[|fs| - 1])
  }

  function GroupSurplus(host: Host, fs: FilterList, order: seq<int>): int {
    if order == [] then 0 else GroupSurplus(host, fs, order[..|order| - 1]) + SumSurplus(host, Members(fs, order[|order| - 1]))
  }

  /** How many "?" the clause rendered for SQLite has beyond the arguments it appended. */
  function TotalSurplus(host: Host, fs: FilterList): int {
    SumSurplus(host, Ungrouped(fs)) + GroupSurplus(host, fs, GroupOrder(fs))
  }

  /** Every filter writes its locale column as often as the driver needs. */
  predicate AllFit(host: Host, fs: FilterList, d: Driver) {
    forall f | f in fs :: f.Some? ==> Fits(host, d, f.value)
  }

  predicate AllFilters(host: Host, fs: seq<Filter>, d: Driver) {
    forall f | f in fs :: Fits(host, d, f)
  }

  predicate GroupsFit(host: Host, fs: FilterList, order: seq<int>, d: Driver) {
    forall g | g in order :: AllFilters(host, Members(fs, g), d)
  }

  lemma TextStarts(d: Driver, a: seq<GoValue>)
    ensures TextDone(d, a, a, true, 0, Join([], AND), Join([], AND)) && TextDone(d, a, a, true, 0, Join([], OR), Join([], OR))
  {
    PlainRenders(d, a, []);
    RenderedDone(d, a, a, [], []);
  }

  lemma DoneConcat(d: Driver, a: seq<GoValue>, b: seq<GoValue>, c: seq<GoValue>, f1: bool, f2: bool, n: int, m: int, s: Text, s': Text, t: Text, t': Text)
    requires TextDone(d, a, b, f1, n, s, s') && TextDone(d, b, c, f2, m, t, t')
    ensures TextDone(d, a, c, f1 && f2, n + m, s + t, s' + t')
  {
    hide Means, Ranged, Lined, Within, Covers;
    HolesConcat(s, t);
    if d.SQLite? { LinedConcat(s, t, |a|, |b|, |c|); } else { CoversConcat(s, t, |a|, |b|, |c|); }
    if (f1 && f2) || d.Postgres? { MeansConcat(d, a, b, c, s, s', t, t'); }
  }

  lemma DonePlain(d: Driver, a: seq<GoValue>, t: Text)
    requires NoHoles(t)
    ensures TextDone(d, a, a, true, 0, t, t)
  {
    PlainRenders(d, a, t);
    RenderedDone(d, a, a, t, t);
  }

  lemma PartAdded(d: Driver, a: seq<GoValue>, b: seq<GoValue>, c: seq<GoValue>, f1: bool, f2: bool, parts: seq<Text>, inlines: seq<Text>, sep: Text,
                  n: int, m: int, t: Text, t': Text)
    requires TextDone(d, a, b, f1, n, Join(parts, sep), Join(inlines, sep)) && |parts| == |inlines|
    requires TextDone(d, b, c, f2, m, t, t')
    requires NoHoles(sep)
    ensures TextDone(d, a, c, f1 && f2, n + m, Join(parts + [t], sep), Join(inlines + [t'], sep))
  {
    hide TextDone, NoHoles;
    JoinSnoc(parts, sep, t);
    JoinSnoc(inlines, sep, t');
    if parts == [] {
      DoneConcat(d, a, b, c, f1, f2, n, m, [], [], t, t');
      assert [] + t == t && [] + t' == t';
    } else {
      DonePlain(d, b, sep);
      DoneConcat(d, a, b, b, f1, true, n, 0, Join(parts, sep), Join(inlines, sep), sep, sep);
      DoneConcat(d, a, b, c, f1, f2, n, m, Join(parts, sep) + sep, Join(inlines, sep) + sep, t, t');
    }
  }

  lemma Separators()
    ensures NoHoles(AND) && NoHoles(OR)
  {
  }

  /** One more filter rendered onto a joined list. */
  lemma FilterAdded(host: Host, model: Model, d: Driver, a: seq<GoValue>, b: seq<GoValue>, c: seq<GoValue>, parts: seq<Text>,
                    fs: seq<Filter>, i: nat, sep: Text, part: Text)
    requires i < |fs| && |parts| == i && NoHoles(sep)
    requires |Conds(host, model, fs[..i], d)| == i
    requires TextDone(d, a, b, AllFilters(host, fs[..i], d), SumSurplus(host, fs[..i]), Join(parts, sep), Join(Conds(host, model, fs[..i], d), sep))
    requires TextDone(d, b, c, Fits(host, d, fs[i]), Surplus(host, fs[i]), part, InlineCond(host, model, fs[i], d))
    ensures |Conds(host, model, fs[..i + 1], d)| == i + 1
    ensures TextDone(d, a, c, AllFilters(host, fs[..i + 1], d), SumSurplus(host, fs[..i + 1]),
                     Join(parts + [part], sep), Join(Conds(host, model, fs[..i + 1], d), sep))
  {
    hide TextDone, Fits, Surplus, InlineCond, Join, NoHoles;
    assert fs[..i + 1][..i] == fs[..i] && fs[..i + 1] == fs[..i] + [fs[i]];
    var inline := InlineCond(host, model, fs[i], d);
    PartAdded(d, a, b, c, AllFilters(host, fs[..i], d), Fits(host, d, fs[i]), parts, Conds(host, model, fs[..i], d), sep,
              SumSurplus(host, fs[..i]), Surplus(host, fs[i]), part, inline);
    assert AllFilters(host, fs[..i + 1], d) == (AllFilters(host, fs[..i], d) && Fits(host, d, fs[i]));
  }

  lemma NothingRendered(host: Host, model: Model, fs: seq<Filter>, d: Driver)
    ensures Conds(host, model, fs[..0], d) == [] && SumSurplus(host, fs[..0]) == 0 && AllFilters(host, fs[..0], d)
  {
  }

  lemma LoneFilter(host: Host, fs: seq<Filter>, d: Driver)
    requires |fs| == 1
    ensures SumSurplus(host, fs) == Surplus(host, fs[0]) && AllFilters(host, fs, d) == Fits(host, d, fs[0])
  {
    assert SumSurplus(host, fs[..0]) == 0;
    assert fs[0] in fs;
  }

  /** The members of one OR group. */
  method BuildGroup(host: Host, model: Model, exprs: seq<Filter>, p: Binder) returns (t: Text)
    requires exprs != []
    modifies p
    ensures TextDone(p.driver, old(p.args), p.args, AllFilters(host, exprs, p.driver), SumSurplus(host, exprs),
                     t, InlineGroup(host, model, exprs, p.driver))
  {
    hide TextDone, Fits, Surplus, InlineCond, Conds, SumSurplus, Join, Holes, NoHoles, AllFilters;
    ghost var a := p.args;
    if |exprs| == 1 {
      t := FilterCond(host, model, exprs[0], p);
      LoneFilter(host, exprs, p.driver);
      return;
    }
    var orParts: seq<Text> := [];
    TextStarts(p.driver, a);
    Separators();
    NothingRendered(host, model, exprs, p.driver);
    var i := 0;
    while i < |exprs|
      invariant 0 <= i <= |exprs| && |orParts| == i && |Conds(host, model, exprs[..i], p.driver)| == i
      invariant TextDone(p.driver, a, p.args, AllFilters(host, exprs[..i], p.driver), SumSurplus(host, exprs[..i]),
                         Join(orParts, OR), Join(Conds(host, model, exprs[..i], p.driver), OR))
    {
      ghost var b := p.args;
      var part := FilterCond(host, model, exprs[i], p);
      FilterAdded(host, model, p.driver, a, b, p.args, orParts, exprs, i, OR, part);
      orParts := orParts + [part];
      i := i + 1;
    }
    assert exprs[..i] == exprs;
    t := [Raw("(")] + Join(orParts, OR) + [Raw(")")];
    Parenthesised(p.driver, a, p.args, AllFilters(host, exprs, p.driver), SumSurplus(host, exprs),
                  Join(orParts, OR), Join(Conds(host, model, exprs, p.driver), OR));
  }

  lemma Parenthesised(d: Driver, a: seq<GoValue>, b: seq<GoValue>, fits: bool, n: int, t: Text, t': Text)
    requires TextDone(d, a, b, fits, n, t, t')
    ensures TextDone(d, a, b, fits, n, [Raw("(")] + t + [Raw(")")], [Raw("(")] + t' + [Raw(")")])
  {
    hide TextDone;
    DonePlain(d, a, [Raw("(")]);
    DonePlain(d, b, [Raw(")")]);
    DoneConcat(d, a, a, b, true, fits, 0, n, [Raw("(")], [Raw("(")], t, t');
    DoneConcat(d, a, b, b, fits, true, n, 0, [Raw("(")] + t, [Raw("(")] + t', [Raw(")")], [Raw(")")]);
  }

  lemma {:induction false} UngroupedAre(fs: FilterList, f: Filter)
    ensures f in Ungrouped(fs) <==> Some(f) in fs && f.group <= 0
  {
    if fs != [] {
      UngroupedAre(fs[..|fs| - 1], f);
      assert fs == fs[..|fs| - 1] + [fs[|fs| - 1]];
    }
  }

  lemma {:induction false} MembersAre(fs: FilterList, g: int, f: Filter)
    ensures f in Members(fs, g) <==> Some(f) in fs && f.group == g
  {
    if fs != [] {
      MembersAre(fs[..|fs| - 1], g, f);
      assert fs == fs[..|fs| - 1] + [fs[|fs| - 1]];
    }
  }

  lemma OrderIs(fs: FilterList, g: int)
    ensures g in GroupOrder(fs) <==> g > 0 && Members(fs, g) != []
  {
    SortIntsSorts(FirstSeen(fs));
    SeenIffMembers(fs, g);
  }

  /** Every filter of the list is among the ungrouped ones or in a group. */
  lemma PartsFit(host: Host, fs: FilterList, d: Driver)
    ensures AllFit(host, fs, d) <==> AllFilters(host, Ungrouped(fs), d) && GroupsFit(host, fs, GroupOrder(fs), d)
  {
    hide Fits, Ungrouped, Members, GroupOrder;
    if AllFit(host, fs, d) {
      forall f | f in Ungrouped(fs) ensures Fits(host, d, f) { UngroupedAre(fs, f); }
      forall g, f | f in Members(fs, g) ensures Fits(host, d, f) { MembersAre(fs, g, f); }
    }
    if AllFilters(host, Ungrouped(fs), d) && GroupsFit(host, fs, GroupOrder(fs), d) {
      forall f | Some(f) in fs ensures Fits(host, d, f) {
        UngroupedAre(fs, f);
        MembersAre(fs, f.group, f);
        OrderIs(fs, f.group);
      }
    }
  }

  lemma GroupAdded(host: Host, fs: FilterList, order: seq<int>, k: nat, d: Driver)
    requires k < |order|
    ensures order[..k + 1][..k] == order[..k]
    ensures GroupsFit(host, fs, order[..k + 1], d) == (GroupsFit(host, fs, order[..k], d) && AllFilters(host, Members(fs, order[k]), d))
  {
    hide AllFilters, Members;
    assert order[..k + 1] == order[..k] + [order[k]];
  }

  /** Renders filters into the body of a WHERE clause. Exactly when every filter fits
      the driver, each "?" takes the argument it was written for, or each argument
      is named by some "$N". Once the arguments are put in, the text is then the
      clause with its values in place, on Postgres in any case; on SQLite it always
      has TotalSurplus more "?" than it appended arguments. */
  method BuildFilterSQL(host: Host, model: Model, filters: FilterList, p: Binder) returns (t: Text)
    modifies p
    ensures TextDone(p.driver, old(p.args), p.args, AllFit(host, filters, p.driver), TotalSurplus(host, filters),
                     t, InlineFilters(host, model, filters, p.driver))
  {
    hide TextDone, Fits, Surplus, InlineCond, AllFit, InlineGroup, Join, Ungrouped, Members, GroupOrder, Conds, SumSurplus, Holes, NoHoles,
      AllFilters, GroupsFit;
    ghost var a := p.args;
    PartsFit(host, filters, p.driver);
    var ungrouped, groups, groupOrder := PartitionFilters(filters);
    OrderNonEmpty(filters);
    var parts: seq<Text> := [];
    TextStarts(p.driver, a);
    Separators();
    NothingRendered(host, model, ungrouped, p.driver);
    var i := 0;
    while i < |ungrouped|
      invariant 0 <= i <= |ungrouped| && |parts| == i && |Conds(host, model, ungrouped[..i], p.driver)| == i
      invariant TextDone(p.driver, a, p.args, AllFilters(host, ungrouped[..i], p.driver), SumSurplus(host, ungrouped[..i]),
                         Join(parts, AND), Join(Conds(host, model, ungrouped[..i], p.driver), AND))
    {
      ghost var b := p.args;
      var part := FilterCond(host, model, ungrouped[i], p);
      FilterAdded(host, model, p.driver, a, b, p.args, parts, ungrouped, i, AND, part);
      parts := parts + [part];
      i := i + 1;
    }
    assert ungrouped[..i] == ungrouped;
    ghost var first := Conds(host, model, ungrouped, p.driver);
    ghost var n0, fits0 := SumSurplus(host, ungrouped), AllFilters(host, ungrouped, p.driver);
    assert first + GroupConds(host, model, filters, groupOrder[..0], p.driver) == first;
    NoGroupsYet(host, filters, groupOrder, p.driver);
    var k := 0;
    while k < |groupOrder|
      invariant 0 <= k <= |groupOrder|
      invariant GroupsNonEmpty(filters, groupOrder[..k])
      invariant |parts| == |first + GroupConds(host, model, filters, groupOrder[..k], p.driver)|
      invariant TextDone(p.driver, a, p.args, fits0 && GroupsFit(host, filters, groupOrder[..k], p.driver),
                         n0 + GroupSurplus(host, filters, groupOrder[..k]),
                         Join(parts, AND), Join(first + GroupConds(host, model, filters, groupOrder[..k], p.driver), AND))
    {
      ghost var b := p.args;
      var gid := groupOrder[k];
      assert gid in groupOrder;
      var part := BuildGroup(host, model, groups[gid], p);
      GroupAdded(host, filters, groupOrder, k, p.driver);
      ghost var before := first + GroupConds(host, model, filters, groupOrder[..k], p.driver);
      ghost var members := Members(filters, gid);
      ghost var inline := InlineGroup(host, model, members, p.driver);
      PartAdded(p.driver, a, b, p.args, fits0 && GroupsFit(host, filters, groupOrder[..k], p.driver), AllFilters(host, members, p.driver),
                parts, before, AND, n0 + GroupSurplus(host, filters, groupOrder[..k]),
                SumSurplus(host, members), part, inline);
      assert before + [inline] == first + GroupConds(host, model, filters, groupOrder[..k + 1], p.driver);
      parts := parts + [part];
      k := k + 1;
    }
    assert groupOrder[..k] == groupOrder;
    t := Join(parts, AND);
  }

  lemma NoGroupsYet(host: Host, fs: FilterList, order: seq<int>, d: Driver)
    ensures GroupsFit(host, fs, order[..0], d) && GroupSurplus(host, fs, order[..0]) == 0
  {
  }
}
