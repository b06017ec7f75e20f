/** The rendered clause means what the filters mean: reading the text back gives a
    predicate that is true on exactly the rows the filters select. */
module FilterMeaning {
  import opened Wrappers
  import opened SqlText
  import opened Filters
  import opened FilterBuild
  import P = SqlParser
  import LikePattern

  // ---- what a filter says, without any text ------------------------------------------

  function Any3(bs: seq<P.Bool3>): P.Bool3 {
    if bs == [] then P.False else P.Or3(bs[0], Any3(bs[1..]))
  }

  function EqualAny(e: P.Engine, x: GoValue, vs: seq<GoValue>): P.Bool3 {
    if vs == [] then P.False else P.Or3(P.Compare3(e, "=", x, vs[0]), EqualAny(e, x, vs[1..]))
  }

  /** The column's text contains, starts with or ends with the value, case aside. */
  function TextTruth(host: Host, e: P.Engine, shape: LikePattern.Shape, x: GoValue, val: GoValue): P.Bool3 {
    if x.Nil? then P.Null
    else P.Of(LikePattern.Shaped(shape, LikePattern.Fold(e.lower, SubstringValue(host, val)), LikePattern.Fold(e.lower, e.text(x))))
  }

  /** An operator applied to a column's value. */
  function OpTruth(host: Host, e: P.Engine, d: Driver, op: Op, x: GoValue, val: GoValue): P.Bool3 {
    match op
    case Eq => P.Compare3(e, "=", x, val)
    case Neq => P.Compare3(e, "!=", x, val)
    case Gt => P.Compare3(e, ">", x, val)
    case Gte => P.Compare3(e, ">=", x, val)
    case Lt => P.Compare3(e, "<", x, val)
    case Lte => P.Compare3(e, "<=", x, val)
    case Contains => TextTruth(host, e, LikePattern.Contains, x, val)
    case StartsWith => TextTruth(host, e, LikePattern.StartsWith, x, val)
    case EndsWith => TextTruth(host, e, LikePattern.EndsWith, x, val)
    case IsNull => P.Of(x.Nil?)
    case NotNull => P.Of(!x.Nil?)
    case Like => P.Like3(e, x, val, false, false)
    case ILike => P.Like3(e, x, val, true, false)
    case In => EqualAny(e, x, SplitFilterList(host, val))
    case NotIn => P.Not3(EqualAny(e, x, SplitFilterList(host, val)))
    case Between =>
      var vs := SplitFilterList(host, val);
      if |vs| != 2 then P.False else P.And3(P.Compare3(e, ">=", x, vs[0]), P.Compare3(e, "<=", x, vs[1]))
    case _ => P.False
  }

  /** Whether a JSON column's value holds what a has filter asks for; None when the
      filter is malformed. Asked of a NULL column, Postgres answers NULL and SQLite
      answers no. */
  function HasTruth(host: Host, e: P.Engine, d: Driver, fm: Field, x: GoValue, val: GoValue): Option<P.Bool3> {
    if fm.jsonArray then
      match host.marshal(val)
      case None => None
      case Some(lit) => Some(if x.Nil? then (if d.Postgres? then P.Null else P.False)
                             else P.Of(if d.Postgres? then e.contains(x, lit) else e.element(x, lit)))
    else if fm.jsonObject then
      match CutPair(host.sprint(val))
      case None => None
      case Some(pair) =>
        if pair.0 == "" || !JsonPathSafeKey(pair.0) then None
        else if d.Postgres? then
          match host.marshalPair(pair.0, pair.1)
          case None => None
          case Some(lit) => Some(if x.Nil? then P.Null else P.Of(e.contains(x, lit)))
        else
          match host.marshal(Str(pair.1))
          case None => None
          case Some(lit) => Some(P.Compare3(e, "=", e.quote(if x.Nil? then Nil else e.extract(x, "$.\"" + pair.0 + "\"")), Str(lit)))
    else None
  }

  /** The value of the column a locale or nested filter looks at. */
  function RemoteValue(e: P.Engine, d: Driver, model: Model, f: Filter, row: P.Row): GoValue {
    if f.isLocale then
      var doc := row(model.table, f.field);
      if doc.Nil? then Nil else if d.Postgres? then e.field(doc, f.localeKey) else e.extract(doc, "$." + f.localeKey)
    else row(f.relationKey, f.nestedField)
  }

  /** What one filter says about a row. A filter that cannot be resolved or is
      malformed is false, its negation included. */
  function Truth(host: Host, e: P.Engine, d: Driver, model: Model, f: Filter, row: P.Row): P.Bool3 {
    if f.isLocale || f.isNested then OpTruth(host, e, d, f.op, RemoteValue(e, d, model, f, row), f.value)
    else match ResolveFilterField(model, f.field)
      case None => P.False
      case Some(fm) =>
        var x := row(model.table, fm.dbName);
        match f.op
        case EqField => FieldTruth(e, model, f, row, "=", x)
        case NeqField => FieldTruth(e, model, f, row, "!=", x)
        case GtField => FieldTruth(e, model, f, row, ">", x)
        case GteField => FieldTruth(e, model, f, row, ">=", x)
        case LtField => FieldTruth(e, model, f, row, "<", x)
        case LteField => FieldTruth(e, model, f, row, "<=", x)
        case Has => (match HasTruth(host, e, d, fm, x, f.value) case None => P.False case Some(b) => b)
        case NotHas => (match HasTruth(host, e, d, fm, x, f.value) case None => P.False case Some(b) => P.Not3(b))
        case _ => OpTruth(host, e, d, f.op, x, host.normalize(fm.kind, f.op, f.value))
  }

  /** A column compared with another column of the row. */
  function FieldTruth(e: P.Engine, model: Model, f: Filter, row: P.Row, sign: string, x: GoValue): P.Bool3 {
    match ResolveFilterField(model, f.valueField)
    case None => P.False
    case Some(rhs) => P.Compare3(e, sign, x, row(model.table, rhs.dbName))
  }

  predicate Passes(host: Host, e: P.Engine, d: Driver, model: Model, f: Filter, row: P.Row) {
    Truth(host, e, d, model, f, row) == P.True
  }

  /** The rows a filter list selects: every ungrouped filter passes, and of each OR
      group at least one member does. */
  ghost predicate Selects(host: Host, e: P.Engine, d: Driver, model: Model, fs: FilterList, row: P.Row) {
    && (forall f :: Some(f) in fs && f.group <= 0 ==> Passes(host, e, d, model, f, row))
    && (forall f :: Some(f) in fs && f.group > 0 ==> GroupPasses(host, e, d, model, fs, f.group, row))
  }

  ghost predicate GroupPasses(host: Host, e: P.Engine, d: Driver, model: Model, fs: FilterList, group: int, row: P.Row) {
    exists f :: Some(f) in fs && f.group == group && Passes(host, e, d, model, f, row)
  }

  // ---- reading one predicate back ----------------------------------------------------

  /** What may stand after a complete predicate. */
  predicate Follows(rest: Text) {
    rest == [] || rest[0] == Raw("AND") || rest[0] == Raw("OR") || rest[0] == Raw(")") || EndsWhere(rest)
  }

  /** The clauses that may come after a WHERE body. */
  predicate EndsWhere(rest: Text) {
    rest == [] || rest[0] == Raw("GROUP BY") || rest[0] == Raw("HAVING") || rest[0] == Raw("ORDER BY") || rest[0] == Raw("LIMIT")
  }

  /** col reads as the operand o, whatever comes after it. */
  ghost predicate ReadsAs(col: Text, o: P.Operand) {
    && col != [] && (col[0].Ident? || col[0] == Raw("json_extract"))
    && forall rest {:trigger col + rest} :: rest != [] && rest[0] != Raw("->>") ==> P.ParseOperand(col + rest) == Some((o, rest))
  }

  /** t reads as the predicate p and stops there: in particular it offers no AND or
      OR to whatever it is joined with. */
  ghost predicate ReadsTight(t: Text, p: P.Pred) {
    forall rest {:trigger t + rest} :: Follows(rest) ==> P.ParsePredicate(t + rest) == Some((p, rest))
  }

  lemma ColumnReads(table: string, col: string)
    ensures ReadsAs(Column(table, col), P.ColumnRef(table, col))
  {
    forall rest: Text | rest != [] && rest[0] != Raw("->>")
      ensures P.ParseOperand(Column(table, col) + rest) == Some((P.ColumnRef(table, col), rest))
    {
      assert (Column(table, col) + rest)[3..] == rest;
    }
  }

  function RemoteOperand(d: Driver, model: Model, f: Filter): P.Operand {
    if f.isLocale then
      var doc := P.ColumnRef(model.table, f.field);
      if d.Postgres? then P.JsonField(doc, Str(f.localeKey)) else P.JsonExtract(doc, Str("$." + f.localeKey))
    else P.ColumnRef(f.relationKey, f.nestedField)
  }

  lemma LocaleFieldReads(table: string, field: string, key: GoValue)
    ensures ReadsAs(Column(table, field) + [Raw("->>"), Bound(key), Raw("::text")], P.JsonField(P.ColumnRef(table, field), key))
  {
    hide P.ParseOperand;
    var col := Column(table, field);
    var t := col + [Raw("->>"), Bound(key), Raw("::text")];
    forall rest: Text | rest != [] && rest[0] != Raw("->>")
      ensures P.ParseOperand(t + rest) == Some((P.JsonField(P.ColumnRef(table, field), key), rest))
    {
      FieldReads(table, field, key, rest);
      assert t + rest == col + ([Raw("->>"), Bound(key), Raw("::text")] + rest);
    }
  }

  lemma LocaleExtractReads(table: string, field: string, path: GoValue)
    ensures ReadsAs([Raw("json_extract"), Raw("(")] + Column(table, field) + [Raw(","), Bound(path), Raw(")")], P.JsonExtract(P.ColumnRef(table, field), path))
  {
    hide P.ParseOperand;
    var col := Column(table, field);
    var t := [Raw("json_extract"), Raw("(")] + col + [Raw(","), Bound(path), Raw(")")];
    ColumnReads(table, field);
    forall rest: Text | rest != [] && rest[0] != Raw("->>")
      ensures P.ParseOperand(t + rest) == Some((P.JsonExtract(P.ColumnRef(table, field), path), rest))
    {
      ReadsBefore(col, P.ColumnRef(table, field), [Raw(","), Bound(path), Raw(")")] + rest);
      ExtractReads(col, P.ColumnRef(table, field), path, rest);
      assert t + rest == [Raw("json_extract"), Raw("(")] + (col + ([Raw(","), Bound(path), Raw(")")] + rest));
    }
  }

  lemma RemoteReads(d: Driver, model: Model, f: Filter)
    requires f.isLocale || f.isNested
    ensures ReadsAs(InlineColumn(model, f, d), RemoteOperand(d, model, f))
  {
    hide ReadsAs;
    ColumnReads(f.relationKey, f.nestedField);
    LocaleFieldReads(model.table, f.field, Str(f.localeKey));
    LocaleExtractReads(model.table, f.field, Str("$." + f.localeKey));
  }

  lemma FieldReads(table: string, col: string, key: GoValue, rest: Text)
    ensures P.ParseOperand(Column(table, col) + ([Raw("->>"), Bound(key), Raw("::text")] + rest))
            == Some((P.JsonField(P.ColumnRef(table, col), key), rest))
  {
    var tail: Text := [Raw("->>"), Bound(key), Raw("::text")] + rest;
    assert (Column(table, col) + tail)[3..] == tail && tail[3..] == rest;
  }

  /** col followed by a tail that is a complete comparison. */
  lemma TailReads(col: Text, o: P.Operand, tail: Text, p: P.Pred)
    requires ReadsAs(col, o) && tail != [] && tail[0].Raw? && tail[0] != Raw("->>")
    requires forall rest {:trigger tail + rest} :: Follows(rest) ==> P.ParseTail(o, tail + rest) == Some((p, rest))
    ensures ReadsTight(col + tail, p)
  {
    hide P.ParseTail, P.ParseOperand;
    forall rest | Follows(rest) ensures P.ParsePredicate((col + tail) + rest) == Some((p, rest)) {
      assert (col + tail) + rest == col + (tail + rest);
    }
  }

  lemma CompareReads(col: Text, o: P.Operand, sign: string, v: GoValue)
    requires ReadsAs(col, o) && P.IsSign(sign)
    ensures ReadsTight(col + [Raw(sign), Bound(v)], P.Compare(sign, o, P.Lit(v)))
  {
    var tail: Text := [Raw(sign), Bound(v)];
    forall rest | Follows(rest) ensures P.ParseTail(o, tail + rest) == Some((P.Compare(sign, o, P.Lit(v)), rest)) {
      assert (tail + rest)[1..] == [Bound(v)] + rest && ([Bound(v)] + rest)[1..] == rest;
    }
    TailReads(col, o, tail, P.Compare(sign, o, P.Lit(v)));
  }

  lemma NullTestReads(col: Text, o: P.Operand, negated: bool)
    requires ReadsAs(col, o)
    ensures ReadsTight(col + [Raw(if negated then "IS NOT NULL" else "IS NULL")], P.NullTest(o, negated))
  {
    var tail: Text := [Raw(if negated then "IS NOT NULL" else "IS NULL")];
    forall rest | Follows(rest) ensures P.ParseTail(o, tail + rest) == Some((P.NullTest(o, negated), rest)) {
      assert (tail + rest)[1..] == rest;
    }
    TailReads(col, o, tail, P.NullTest(o, negated));
  }

  lemma Escapes(escaped: bool, rest: Text)
    requires Follows(rest)
    ensures var after: Text := (if escaped then [Raw("ESCAPE"), Raw("'\\'")] else []) + rest;
            && ((|after| >= 2 && after[0] == Raw("ESCAPE") && after[1] == Raw("'\\'")) <==> escaped)
            && (escaped ==> after[2..] == rest) && (!escaped ==> after == rest)
  {
  }

  /** LIKE or ILIKE and what its right side reads as. */
  lemma LikeStep(o: P.Operand, r: P.Operand, ilike: bool, escaped: bool, right: Text, rest: Text)
    requires Follows(rest)
    requires var after: Text := (if escaped then [Raw("ESCAPE"), Raw("'\\'")] else []) + rest; P.ParseOperand(right) == Some((r, after))
    ensures P.ParseTail(o, [Raw(if ilike then "ILIKE" else "LIKE")] + right) == Some((P.LikeTest(o, r, ilike, escaped), rest))
  {
    hide P.ParseItems, P.ParseOperand, Follows;
    Escapes(escaped, rest);
    assert ([Raw(if ilike then "ILIKE" else "LIKE")] + right)[1..] == right;
  }

  lemma LikeTail(o: P.Operand, v: GoValue, ilike: bool, escaped: bool, tail: Text, rest: Text)
    requires Follows(rest)
    requires tail == [Raw(if ilike then "ILIKE" else "LIKE"), Bound(v)] + (if escaped then [Raw("ESCAPE"), Raw("'\\'")] else [])
    ensures P.ParseTail(o, tail + rest) == Some((P.LikeTest(o, P.Lit(v), ilike, escaped), rest))
  {
    hide P.ParseTail, P.ParseOperand;
    var after := (if escaped then [Raw("ESCAPE"), Raw("'\\'")] else []) + rest;
    BoundReads(v, after);
    LikeStep(o, P.Lit(v), ilike, escaped, [Bound(v)] + after, rest);
    assert tail + rest == [Raw(if ilike then "ILIKE" else "LIKE")] + ([Bound(v)] + after);
  }

  lemma LikeReads(col: Text, o: P.Operand, v: GoValue, ilike: bool, escaped: bool)
    requires ReadsAs(col, o)
    ensures ReadsTight(col + ([Raw(if ilike then "ILIKE" else "LIKE"), Bound(v)] + (if escaped then [Raw("ESCAPE"), Raw("'\\'")] else [])),
                       P.LikeTest(o, P.Lit(v), ilike, escaped))
  {
    hide ReadsAs, P.ParseTail;
    var tail: Text := [Raw(if ilike then "ILIKE" else "LIKE"), Bound(v)] + (if escaped then [Raw("ESCAPE"), Raw("'\\'")] else []);
    forall rest | Follows(rest)
      ensures P.ParseTail(o, tail + rest) == Some((P.LikeTest(o, P.Lit(v), ilike, escaped), rest))
    {
      LikeTail(o, v, ilike, escaped, tail, rest);
    }
    TailReads(col, o, tail, P.LikeTest(o, P.Lit(v), ilike, escaped));
  }

  lemma ReadsBefore(col: Text, o: P.Operand, rest: Text)
    requires ReadsAs(col, o) && rest != [] && rest[0] != Raw("->>")
    ensures P.ParseOperand(col + rest) == Some((o, rest))
  {
  }

  /** f ( col ) as an operand. */
  lemma CallReads(f: string, col: Text, o: P.Operand, rest: Text)
    requires f == "LOWER" || f == "json_quote"
    requires P.ParseOperand(col + ([Raw(")")] + rest)) == Some((o, [Raw(")")] + rest))
    ensures P.ParseOperand([Raw(f), Raw("(")] + (col + ([Raw(")")] + rest))) == Some((if f == "LOWER" then P.Lower(o) else P.JsonQuote(o), rest))
  {
    var inner := col + ([Raw(")")] + rest);
    assert ([Raw(f), Raw("(")] + inner)[2..] == inner && ([Raw(")")] + rest)[1..] == rest;
  }

  lemma BoundReads(v: GoValue, rest: Text)
    ensures P.ParseOperand([Bound(v)] + rest) == Some((P.Lit(v), rest))
  {
    assert ([Bound(v)] + rest)[1..] == rest;
  }

  /** A comparison tail whose right side is LOWER ( v ). */
  lemma LowerLikeTail(o: P.Operand, v: GoValue, escaped: bool, tail: Text, rest: Text)
    requires Follows(rest)
    requires tail == [Raw("LIKE"), Raw("LOWER"), Raw("("), Bound(v), Raw(")")] + (if escaped then [Raw("ESCAPE"), Raw("'\\'")] else [])
    ensures P.ParseTail(o, tail + rest) == Some((P.LikeTest(o, P.Lower(P.Lit(v)), false, escaped), rest))
  {
    hide P.ParseTail, P.ParseOperand;
    var after := (if escaped then [Raw("ESCAPE"), Raw("'\\'")] else []) + rest;
    var arg := [Raw("LOWER"), Raw("(")] + ([Bound(v)] + ([Raw(")")] + after));
    BoundReads(v, [Raw(")")] + after);
    CallReads("LOWER", [Bound(v)], P.Lit(v), after);
    LikeStep(o, P.Lower(P.Lit(v)), false, escaped, arg, rest);
    assert tail + rest == [Raw("LIKE")] + arg;
  }

  /** LOWER ( col ) LIKE LOWER ( v ) [ESCAPE '\'] */
  lemma LowerLikeReads(col: Text, o: P.Operand, v: GoValue, escaped: bool)
    requires ReadsAs(col, o)
    ensures ReadsTight([Raw("LOWER"), Raw("(")] + col + [Raw(")"), Raw("LIKE"), Raw("LOWER"), Raw("("), Bound(v), Raw(")")]
                       + (if escaped then [Raw("ESCAPE"), Raw("'\\'")] else []),
                       P.LikeTest(P.Lower(o), P.Lower(P.Lit(v)), false, escaped))
  {
    hide ReadsAs, P.ParseTail, P.ParseOperand;
    var esc: Text := if escaped then [Raw("ESCAPE"), Raw("'\\'")] else [];
    var tail: Text := [Raw("LIKE"), Raw("LOWER"), Raw("("), Bound(v), Raw(")")] + esc;
    var t := [Raw("LOWER"), Raw("(")] + col + [Raw(")"), Raw("LIKE"), Raw("LOWER"), Raw("("), Bound(v), Raw(")")] + esc;
    var p := P.LikeTest(P.Lower(o), P.Lower(P.Lit(v)), false, escaped);
    forall rest | Follows(rest) ensures P.ParsePredicate(t + rest) == Some((p, rest)) {
      ReadsBefore(col, o, [Raw(")")] + (tail + rest));
      CallReads("LOWER", col, o, tail + rest);
      LowerLikeTail(P.Lower(o), v, escaped, tail, rest);
      assert t + rest == [Raw("LOWER"), Raw("(")] + (col + ([Raw(")")] + (tail + rest)));
    }
  }

  function Lits(vs: seq<GoValue>): seq<P.Operand> {
    if vs == [] then [] else [P.Lit(vs[0])] + Lits(vs[1..])
  }

  lemma {:induction false} BoundsCons(vs: seq<GoValue>)
    requires vs != []
    ensures Bounds(vs) == [[Bound(vs[0])]] + Bounds(vs[1..])
    decreases |vs|
  {
    if |vs| > 1 {
      BoundsCons(vs[..|vs| - 1]);
      assert vs[..|vs| - 1][1..] == vs[1..][..|vs| - 2];
    }
  }

  lemma LastItemReads(v: GoValue, rest: Text)
    ensures P.ParseItems([Bound(v)] + ([Raw(")")] + rest)) == Some(([P.Lit(v)], rest))
  {
    BoundReads(v, [Raw(")")] + rest);
    assert ([Raw(")")] + rest)[1..] == rest;
  }

  lemma ItemReads(v: GoValue, more: Text, items: seq<P.Operand>, rest: Text)
    requires P.ParseItems(more) == Some((items, rest))
    ensures P.ParseItems([Bound(v)] + ([Raw(",")] + more)) == Some(([P.Lit(v)] + items, rest))
  {
    BoundReads(v, [Raw(",")] + more);
    assert ([Raw(",")] + more)[1..] == more;
  }

  lemma {:induction false} ItemsRead(vs: seq<GoValue>, rest: Text)
    requires vs != []
    ensures P.ParseItems(Join(Bounds(vs), COMMA) + [Raw(")")] + rest) == Some((Lits(vs), rest))
    decreases |vs|
  {
    hide P.ParseItems, P.ParseOperand, Join;
    BoundsCons(vs);
    BoundsSnoc(vs[1..], Nil);
    var ts := Join(Bounds(vs), COMMA) + [Raw(")")] + rest;
    if |vs| == 1 {
      assert Bounds(vs) == [[Bound(vs[0])]];
      JoinOne([Bound(vs[0])]);
      LastItemReads(vs[0], rest);
      assert ts == [Bound(vs[0])] + ([Raw(")")] + rest) && Lits(vs) == [P.Lit(vs[0])];
    } else {
      JoinCons(Bounds(vs), COMMA);
      assert Bounds(vs)[1..] == Bounds(vs[1..]);
      var more := Join(Bounds(vs[1..]), COMMA) + [Raw(")")] + rest;
      ItemsRead(vs[1..], rest);
      ItemReads(vs[0], more, Lits(vs[1..]), rest);
      assert ts == [Bound(vs[0])] + ([Raw(",")] + more);
    }
  }

  lemma JoinOne(t: Text)
    ensures Join([t], COMMA) == t
  {
  }

  lemma InTail(o: P.Operand, vs: seq<GoValue>, negate: bool, tail: Text, rest: Text)
    requires vs != [] && tail == [Raw(if negate then "NOT IN" else "IN"), Raw("(")] + Join(Bounds(vs), COMMA) + [Raw(")")]
    ensures P.ParseTail(o, tail + rest) == Some((P.InTest(o, Lits(vs), negate), rest))
  {
    hide P.ParseOperand, P.ParseItems, Join, Bounds;
    var items := Join(Bounds(vs), COMMA) + [Raw(")")] + rest;
    assert tail + rest == [Raw(if negate then "NOT IN" else "IN"), Raw("(")] + items;
    assert ([Raw(if negate then "NOT IN" else "IN"), Raw("(")] + items)[2..] == items;
    ItemsRead(vs, rest);
  }

  lemma InReads(col: Text, o: P.Operand, vs: seq<GoValue>, negate: bool)
    requires ReadsAs(col, o) && vs != []
    ensures ReadsTight(InlineIn(col, vs, negate), P.InTest(o, Lits(vs), negate))
  {
    hide ReadsAs, P.ParseTail, Join, Bounds, Lits;
    var tail: Text := [Raw(if negate then "NOT IN" else "IN"), Raw("(")] + Join(Bounds(vs), COMMA) + [Raw(")")];
    forall rest | Follows(rest) ensures P.ParseTail(o, tail + rest) == Some((P.InTest(o, Lits(vs), negate), rest)) {
      InTail(o, vs, negate, tail, rest);
    }
    TailReads(col, o, tail, P.InTest(o, Lits(vs), negate));
    assert InlineIn(col, vs, negate) == col + tail;
  }

  const FALSE_PRED := P.Compare("=", P.Number("1"), P.Number("0"))
  const TRUE_PRED := P.Compare("=", P.Number("1"), P.Number("1"))

  lemma ConstantReads()
    ensures ReadsTight(FALSE_PREDICATE, FALSE_PRED) && ReadsTight(TRUE_PREDICATE, TRUE_PRED)
  {
    forall rest, n: string | Follows(rest) && (n == "0" || n == "1")
      ensures P.ParsePredicate([Raw("1"), Raw("="), Raw(n)] + rest) == Some((P.Compare("=", P.Number("1"), P.Number(n)), rest))
    {
      var ts := [Raw("1"), Raw("="), Raw(n)] + rest;
      assert ts[1..] == [Raw("="), Raw(n)] + rest && ts[1..][1..] == [Raw(n)] + rest && ([Raw(n)] + rest)[1..] == rest;
    }
  }

  lemma TightReadsAnd(t: Text, p: P.Pred, rest: Text)
    requires ReadsTight(t, p) && Follows(rest) && !P.At(rest, "AND")
    ensures P.ParseAnd(t + rest) == Some((p, rest))
    ensures !P.At(rest, "OR") ==> P.ParseOr(t + rest) == Some((p, rest))
  {
  }

  lemma GroupReads(t: Text, p: P.Pred)
    requires forall rest {:trigger t + rest} :: P.At(rest, ")") ==> P.ParseOr(t + rest) == Some((p, rest))
    ensures ReadsTight([Raw("(")] + t + [Raw(")")], p)
  {
    forall rest | Follows(rest) ensures P.ParsePredicate([Raw("(")] + t + [Raw(")")] + rest) == Some((p, rest)) {
      var ts := [Raw("(")] + t + [Raw(")")] + rest;
      assert ts[1..] == t + ([Raw(")")] + rest) && ([Raw(")")] + rest)[1..] == rest;
    }
  }

  lemma BetweenReads(col: Text, o: P.Operand, lo: GoValue, hi: GoValue)
    requires ReadsAs(col, o)
    ensures ReadsTight(InlineBetween(col, [lo, hi]), P.And(P.Compare(">=", o, P.Lit(lo)), P.Compare("<=", o, P.Lit(hi))))
  {
    hide ReadsAs, ReadsTight, P.ParseAnd, P.ParseOr;
    var left, right := col + [Raw(">="), Bound(lo)], col + [Raw("<="), Bound(hi)];
    CompareReads(col, o, ">=", lo);
    CompareReads(col, o, "<=", hi);
    var t := left + ([Raw("AND")] + right);
    var p := P.And(P.Compare(">=", o, P.Lit(lo)), P.Compare("<=", o, P.Lit(hi)));
    forall rest | P.At(rest, ")") ensures P.ParseOr(t + rest) == Some((p, rest)) {
      TightReadsAnd(right, P.Compare("<=", o, P.Lit(hi)), rest);
      AndStep(left, P.Compare(">=", o, P.Lit(lo)), right + rest, P.Compare("<=", o, P.Lit(hi)), rest);
      assert t + rest == left + ([Raw("AND")] + (right + rest));
    }
    GroupReads(t, p);
    assert InlineBetween(col, [lo, hi]) == [Raw("(")] + t + [Raw(")")];
  }

  lemma AndStep(t: Text, p: P.Pred, more: Text, q: P.Pred, rest: Text)
    requires ReadsTight(t, p) && P.ParseAnd(more) == Some((q, rest))
    ensures P.ParseAnd(t + ([Raw("AND")] + more)) == Some((P.And(p, q), rest))
    ensures !P.At(rest, "OR") ==> P.ParseOr(t + ([Raw("AND")] + more)) == Some((P.And(p, q), rest))
  {
    var tail := [Raw("AND")] + more;
    assert tail[1..] == more;
    assert P.ParsePredicate(t + tail) == Some((p, tail));
  }

  lemma OrStep(t: Text, p: P.Pred, more: Text, q: P.Pred, rest: Text)
    requires ReadsTight(t, p) && P.ParseOr(more) == Some((q, rest))
    ensures P.ParseOr(t + ([Raw("OR")] + more)) == Some((P.Or(p, q), rest))
  {
    var tail := [Raw("OR")] + more;
    assert tail[1..] == more;
    assert P.ParsePredicate(t + tail) == Some((p, tail));
    assert P.ParseAnd(t + tail) == Some((p, tail));
  }

  lemma ContainsReads(col: Text, o: P.Operand, v: GoValue)
    requires ReadsAs(col, o)
    ensures ReadsTight(col + [Raw("@>"), Bound(v), Raw("::jsonb")], P.JsonContains(o, v))
  {
    var tail: Text := [Raw("@>"), Bound(v), Raw("::jsonb")];
    forall rest | Follows(rest) ensures P.ParseTail(o, tail + rest) == Some((P.JsonContains(o, v), rest)) {
      assert (tail + rest)[3..] == rest;
    }
    TailReads(col, o, tail, P.JsonContains(o, v));
  }

  lemma ExistsReads(col: Text, o: P.Operand, quoted: Text, v: GoValue, rest: Text)
    requires quoted == [Raw("json_quote"), Raw("("), Ident("json_each"), Raw("."), Ident("value"), Raw(")")]
    requires var mid: Text := [Raw(")"), Raw("WHERE")] + (quoted + ([Raw("=")] + ([Bound(v)] + ([Raw(")")] + rest))));
             P.ParseOperand(col + mid) == Some((o, mid))
    ensures var mid: Text := [Raw(")"), Raw("WHERE")] + (quoted + ([Raw("=")] + ([Bound(v)] + ([Raw(")")] + rest))));
            P.ParseExists([Raw("("), Raw("SELECT 1 FROM json_each"), Raw("(")] + (col + mid)) == Some((P.JsonEach(o, P.Lit(v)), rest))
  {
    hide P.ParseOperand;
    var close: Text := [Raw(")")] + rest;
    var last: Text := [Raw("=")] + ([Bound(v)] + close);
    var mid: Text := [Raw(")"), Raw("WHERE")] + (quoted + last);
    QuotedValueReads(quoted, last);
    BoundReads(v, close);
    assert mid[2..] == quoted + last && last[1..] == [Bound(v)] + close && close[1..] == rest;
    assert ([Raw("("), Raw("SELECT 1 FROM json_each"), Raw("(")] + (col + mid))[3..] == col + mid;
  }

  lemma EachReads(col: Text, o: P.Operand, v: GoValue)
    requires ReadsAs(col, o)
    ensures ReadsTight([Raw("EXISTS"), Raw("("), Raw("SELECT 1 FROM json_each"), Raw("(")] + col
                       + [Raw(")"), Raw("WHERE"), Raw("json_quote"), Raw("("), Ident("json_each"), Raw("."), Ident("value"), Raw(")"),
                          Raw("="), Bound(v), Raw(")")],
                       P.JsonEach(o, P.Lit(v)))
  {
    hide ReadsAs, P.ParseExists, P.ParseOperand;
    var quoted: Text := [Raw("json_quote"), Raw("("), Ident("json_each"), Raw("."), Ident("value"), Raw(")")];
    var t := [Raw("EXISTS"), Raw("("), Raw("SELECT 1 FROM json_each"), Raw("(")] + col
             + [Raw(")"), Raw("WHERE"), Raw("json_quote"), Raw("("), Ident("json_each"), Raw("."), Ident("value"), Raw(")"),
                Raw("="), Bound(v), Raw(")")];
    forall rest | Follows(rest) ensures P.ParsePredicate(t + rest) == Some((P.JsonEach(o, P.Lit(v)), rest)) {
      var mid: Text := [Raw(")"), Raw("WHERE")] + (quoted + ([Raw("=")] + ([Bound(v)] + ([Raw(")")] + rest))));
      ReadsBefore(col, o, mid);
      ExistsReads(col, o, quoted, v, rest);
      assert (t + rest)[1..] == [Raw("("), Raw("SELECT 1 FROM json_each"), Raw("(")] + (col + mid);
    }
  }

  lemma QuotedValueReads(quoted: Text, rest: Text)
    requires quoted == [Raw("json_quote"), Raw("("), Ident("json_each"), Raw("."), Ident("value"), Raw(")")]
    ensures P.ParseOperand(quoted + rest) == Some((P.EACH_VALUE, rest))
  {
    var inner: Text := [Raw(")")] + rest;
    assert (quoted + rest)[2..] == Column("json_each", "value") + inner;
    ColumnReads("json_each", "value");
    assert inner[1..] == rest;
  }

  lemma ExtractReads(col: Text, o: P.Operand, path: GoValue, rest: Text)
    requires var inner: Text := [Raw(","), Bound(path), Raw(")")] + rest; P.ParseOperand(col + inner) == Some((o, inner))
    ensures P.ParseOperand([Raw("json_extract"), Raw("(")] + (col + ([Raw(","), Bound(path), Raw(")")] + rest))) == Some((P.JsonExtract(o, path), rest))
  {
    var inner: Text := [Raw(","), Bound(path), Raw(")")] + rest;
    assert ([Raw("json_extract"), Raw("(")] + (col + inner))[2..] == col + inner && inner[3..] == rest;
  }

  lemma ObjectReads(col: Text, o: P.Operand, path: GoValue, v: GoValue)
    requires ReadsAs(col, o)
    ensures ReadsTight([Raw("json_quote"), Raw("("), Raw("json_extract"), Raw("(")] + col
                       + [Raw(","), Bound(path), Raw(")"), Raw(")"), Raw("="), Bound(v)],
                       P.Compare("=", P.JsonQuote(P.JsonExtract(o, path)), P.Lit(v)))
  {
    hide ReadsAs, P.ParseOperand;
    var t := [Raw("json_quote"), Raw("("), Raw("json_extract"), Raw("(")] + col + [Raw(","), Bound(path), Raw(")"), Raw(")"), Raw("="), Bound(v)];
    forall rest | Follows(rest)
      ensures P.ParsePredicate(t + rest) == Some((P.Compare("=", P.JsonQuote(P.JsonExtract(o, path)), P.Lit(v)), rest))
    {
      var last: Text := [Raw("=")] + ([Bound(v)] + rest);
      var close: Text := [Raw(")")] + last;
      var inner: Text := [Raw(","), Bound(path), Raw(")")] + close;
      ReadsBefore(col, o, inner);
      ExtractReads(col, o, path, close);
      var extract: Text := [Raw("json_extract"), Raw("(")] + (col + [Raw(","), Bound(path), Raw(")")]);
      assert extract + close == [Raw("json_extract"), Raw("(")] + (col + inner);
      CallReads("json_quote", extract, P.JsonExtract(o, path), last);
      assert t + rest == [Raw("json_quote"), Raw("(")] + (extract + close);
      BoundReads(v, rest);
      assert last[1..] == [Bound(v)] + rest;
    }
  }

  lemma NotReads(t: Text, p: P.Pred)
    requires ReadsTight(t, p)
    ensures ReadsTight([Raw("NOT"), Raw("(")] + t + [Raw(")")], P.Not(p))
  {
    hide ReadsTight;
    forall rest | P.At(rest, ")") ensures P.ParseOr(t + rest) == Some((p, rest)) { TightReadsAnd(t, p, rest); }
    GroupReads(t, p);
    NegatedReads([Raw("(")] + t + [Raw(")")], p);
    assert [Raw("NOT")] + ([Raw("(")] + t + [Raw(")")]) == [Raw("NOT"), Raw("(")] + t + [Raw(")")];
  }

  lemma TightReads(t: Text, p: P.Pred, rest: Text)
    requires ReadsTight(t, p) && Follows(rest)
    ensures P.ParsePredicate(t + rest) == Some((p, rest))
  {
    hide P.ParsePredicate;
  }

  lemma NotStep(ts: Text, p: P.Pred, rest: Text)
    requires P.ParsePredicate(ts) == Some((p, rest))
    ensures P.ParsePredicate([Raw("NOT")] + ts) == Some((P.Not(p), rest))
  {
    hide P.ParseOr, P.ParseExists, P.ParseOperand, P.ParseTail;
    assert ([Raw("NOT")] + ts)[1..] == ts;
  }

  lemma NegatedReads(g: Text, p: P.Pred)
    requires ReadsTight(g, p)
    ensures ReadsTight([Raw("NOT")] + g, P.Not(p))
  {
    hide P.ParsePredicate;
    forall rest | Follows(rest) ensures P.ParsePredicate(([Raw("NOT")] + g) + rest) == Some((P.Not(p), rest)) {
      TightReads(g, p, rest);
      NotStep(g + rest, p, rest);
      assert ([Raw("NOT")] + g) + rest == [Raw("NOT")] + (g + rest);
    }
  }
}
