/** Filters and their rendering into the body of a WHERE clause. Inline... functions
    give the same text with values where the placeholders stand; each renderer is
    proved to produce a text that becomes it once the arguments are put in. */
module Filters {
  import opened Wrappers
  import opened SqlText
  import LikePattern

  datatype Op =
    | Eq | Neq | Gt | Gte | Lt | Lte
    | Like | ILike
    | In | NotIn | IsNull | NotNull | Between
    | Contains | StartsWith | EndsWith
    | Has | NotHas
    | EqField | NeqField | GtField | GteField | LtField | LteField
    | Unknown(name: string)

  datatype Kind = TextKind | NumberKind | BoolKind | TimeKind | OtherKind

  datatype Field = Field(dbName: string, jsonName: string, kind: Kind, jsonArray: bool, jsonObject: bool)

  datatype Model = Model(name: string, table: string, fields: seq<Field>)

  datatype Filter = Filter(
    field: string, op: Op, value: GoValue, valueField: string,
    isNested: bool, relationKey: string, nestedField: string,
    isLocale: bool, localeKey: string,
    group: int)

  /** The library helpers the renderer leans on. */
  datatype Host = Host(
    sprint: GoValue -> string,
    splitCSV: string -> seq<string>,
    normalize: (Kind, Op, GoValue) -> GoValue,
    marshal: GoValue -> Option<string>,
    marshalPair: (string, string) -> Option<string>)

  // ---- resolution -----------------------------------------------------------------

  function FieldByDBName(fields: seq<Field>, name: string): Option<Field> {
    if fields == [] then None else if fields[0].dbName == name then Some(fields[0]) else FieldByDBName(fields[1..], name)
  }

  function FieldByJSONName(fields: seq<Field>, name: string): Option<Field> {
    if fields == [] then None else if fields[0].jsonName == name then Some(fields[0]) else FieldByJSONName(fields[1..], name)
  }

  /** Either spelling names the field, the DB one first. */
  function ResolveFilterField(model: Model, name: string): Option<Field> {
    var f := FieldByDBName(model.fields, name);
    if f.Some? then f else FieldByJSONName(model.fields, name)
  }

  // ---- fragments -------------------------------------------------------------------

  const FALSE_PREDICATE: Text := [Raw("1"), Raw("="), Raw("0")]
  const TRUE_PREDICATE: Text := [Raw("1"), Raw("="), Raw("1")]
  const AND: Text := [Raw("AND")]
  const OR: Text := [Raw("OR")]
  const COMMA: Text := [Raw(",")]

  function Column(table: string, col: string): Text {
    [Ident(table), Raw("."), Ident(col)]
  }

  function CompareSign(op: Op): Option<string> {
    match op
    case Eq => Some("=") case Neq => Some("!=") case Gt => Some(">")
    case Gte => Some(">=") case Lt => Some("<") case Lte => Some("<=")
    case _ => None
  }

  function FieldComparisonOp(op: Op): Option<string> {
    match op
    case EqField => Some("=") case NeqField => Some("!=") case GtField => Some(">")
    case GteField => Some(">=") case LtField => Some("<") case LteField => Some("<=")
    case _ => None
  }

  function SubstringShape(op: Op): Option<LikePattern.Shape> {
    match op
    case Contains => Some(LikePattern.Contains)
    case StartsWith => Some(LikePattern.StartsWith)
    case EndsWith => Some(LikePattern.EndsWith)
    case _ => None
  }

  function SplitFilterList(host: Host, v: GoValue): seq<GoValue> {
    match v
    case List(vs) => vs
    case _ => Strs(host.splitCSV(host.sprint(v)))
  }

  function Strs(ss: seq<string>): seq<GoValue> {
    if ss == [] then [] else [Str(ss[0])] + Strs(ss[1..])
  }

  function SubstringValue(host: Host, v: GoValue): string {
    if v.Nil? then "" else host.sprint(v)
  }

  /** strings.Cut at the first "=". */
  function CutPair(s: string): Option<(string, string)> {
    if s == "" then None
    else if s[0] == '=' then Some(("", s[1..]))
    else match CutPair(s[1..]) case None => None case Some(r) => Some(([s[0]] + r.0, r.1))
  }

  predicate JsonPathSafeKey(key: string) {
    '"' !in key && '\\' !in key
  }

  // ---- the text with its values in place -----------------------------------------------

  function InlineColumn(model: Model, f: Filter, d: Driver): Text {
    if f.isLocale then
      var col := Column(model.table, f.field);
      if d.Postgres? then col + [Raw("->>"), Bound(Str(f.localeKey)), Raw("::text")]
      else [Raw("json_extract"), Raw("(")] + col + [Raw(","), Bound(Str("$." + f.localeKey)), Raw(")")]
    else Column(f.relationKey, f.nestedField)
  }

  function Bounds(vs: seq<GoValue>): seq<Text> {
    if vs == [] then [] else Bounds(vs[..|vs| - 1]) + [[Bound(vs[|vs| - 1])]]
  }

  function InlineIn(col: Text, vs: seq<GoValue>, negate: bool): Text {
    if vs == [] then (if negate then TRUE_PREDICATE else FALSE_PREDICATE)
    else col + [Raw(if negate then "NOT IN" else "IN"), Raw("(")] + Join(Bounds(vs), COMMA) + [Raw(")")]
  }

  function InlineBetween(col: Text, vs: seq<GoValue>): Text {
    if |vs| != 2 then FALSE_PREDICATE
    else [Raw("(")] + col + [Raw(">="), Bound(vs[0]), Raw("AND")] + col + [Raw("<="), Bound(vs[1]), Raw(")")]
  }

  function InlineSubstring(col: Text, pattern: string, d: Driver): Text {
    if d.Postgres? then col + [Raw("ILIKE"), Bound(Str(pattern)), Raw("ESCAPE"), Raw("'\\'")]
    else [Raw("LOWER"), Raw("(")] + col + [Raw(")"), Raw("LIKE"), Raw("LOWER"), Raw("("), Bound(Str(pattern)), Raw(")"), Raw("ESCAPE"), Raw("'\\'")]
  }

  function InlinePredicate(host: Host, col: Text, op: Op, val: GoValue, d: Driver): Text {
    if CompareSign(op).Some? then col + [Raw(CompareSign(op).value), Bound(val)]
    else if SubstringShape(op).Some? then
      InlineSubstring(col, LikePattern.Pattern(SubstringShape(op).value, SubstringValue(host, val)), d)
    else match op
      case IsNull => col + [Raw("IS NULL")]
      case NotNull => col + [Raw("IS NOT NULL")]
      case Like => col + [Raw("LIKE"), Bound(val)]
      case ILike =>
        if d.Postgres? then col + [Raw("ILIKE"), Bound(val)]
        else [Raw("LOWER"), Raw("(")] + col + [Raw(")"), Raw("LIKE"), Raw("LOWER"), Raw("("), Bound(val), Raw(")")]
      case In => InlineIn(col, SplitFilterList(host, val), false)
      case NotIn => InlineIn(col, SplitFilterList(host, val), true)
      case Between => InlineBetween(col, SplitFilterList(host, val))
      case _ => FALSE_PREDICATE
  }

  function InlineArrayHas(host: Host, col: Text, val: GoValue, d: Driver): Option<Text> {
    match host.marshal(val)
    case None => None
    case Some(lit) =>
      if d.Postgres? then Some(col + [Raw("@>"), Bound(Str(lit)), Raw("::jsonb")])
      else Some([Raw("EXISTS"), Raw("("), Raw("SELECT 1 FROM json_each"), Raw("(")] + col
                + [Raw(")"), Raw("WHERE"), Raw("json_quote"), Raw("("), Ident("json_each"), Raw("."), Ident("value"), Raw(")"),
                   Raw("="), Bound(Str(lit)), Raw(")")])
  }

  function InlineObjectHas(host: Host, col: Text, val: GoValue, d: Driver): Option<Text> {
    match CutPair(host.sprint(val))
    case None => None
    case Some(pair) =>
      if pair.0 == "" || !JsonPathSafeKey(pair.0) then None
      else if d.Postgres? then
        match host.marshalPair(pair.0, pair.1)
        case None => None
        case Some(lit) => Some(col + [Raw("@>"), Bound(Str(lit)), Raw("::jsonb")])
      else
        match host.marshal(Str(pair.1))
        case None => None
        case Some(lit) =>
          Some([Raw("json_quote"), Raw("("), Raw("json_extract"), Raw("(")] + col
               + [Raw(","), Bound(Str("$.\"" + pair.0 + "\"")), Raw(")"), Raw(")"), Raw("="), Bound(Str(lit))])
  }

  function InlineHas(host: Host, col: Text, fm: Field, val: GoValue, d: Driver): Option<Text> {
    if fm.jsonArray then InlineArrayHas(host, col, val, d)
    else if fm.jsonObject then InlineObjectHas(host, col, val, d)
    else None
  }

  function InlineJsonHas(host: Host, col: Text, fm: Field, op: Op, val: GoValue, d: Driver): Text {
    match InlineHas(host, col, fm, val, d)
    case None => FALSE_PREDICATE
    case Some(pred) => if op == NotHas then [Raw("NOT"), Raw("(")] + pred + [Raw(")")] else pred
  }

  function InlineCond(host: Host, model: Model, f: Filter, d: Driver): Text {
    if f.isLocale || f.isNested then InlinePredicate(host, InlineColumn(model, f, d), f.op, f.value, d)
    else match ResolveFilterField(model, f.field)
      case None => FALSE_PREDICATE
      case Some(fm) =>
        var col := Column(model.table, fm.dbName);
        if FieldComparisonOp(f.op).Some? then
          match ResolveFilterField(model, f.valueField)
          case None => FALSE_PREDICATE
          case Some(rhs) => col + [Raw(FieldComparisonOp(f.op).value)] + Column(model.table, rhs.dbName)
        else if f.op == Has || f.op == NotHas then InlineJsonHas(host, col, fm, f.op, f.value, d)
        else InlinePredicate(host, col, f.op, host.normalize(fm.kind, f.op, f.value), d)
  }

  // ---- how often the column is written ----------------------------------------------

  /** How many times a predicate's text contains its column. */
  function ColumnUses(host: Host, op: Op, val: GoValue): nat {
    if op == Between then (if |SplitFilterList(host, val)| == 2 then 2 else 0)
    else if op == In || op == NotIn then (if SplitFilterList(host, val) == [] then 0 else 1)
    else if CompareSign(op).Some? || SubstringShape(op).Some? || op == IsNull || op == NotNull || op == Like || op == ILike then 1
    else 0
  }

  /** A rendered locale column binds its key, once, whatever the predicate then does
      with the column's text. On SQLite its "?" has to appear exactly once; on
      Postgres, whose "$N" may be repeated, at least once. */
  predicate Fits(host: Host, d: Driver, f: Filter) {
    f.isLocale ==> UsesFit(d, ColumnUses(host, f.op, f.value))
  }

  predicate UsesFit(d: Driver, uses: nat) {
    if d.SQLite? then uses == 1 else uses >= 1
  }

  /** The "?" a filter rendered for SQLite has beyond the arguments it appended. */
  function Surplus(host: Host, f: Filter): int {
    if f.isLocale then ColumnUses(host, f.op, f.value) - 1 else 0
  }

  /** What a renderer leaves. The text is in line with its arguments exactly if it
      fits the driver: on SQLite each "?" takes the argument it was written for and
      none is left over, on Postgres each argument is named by some "$N". If it
      fits, and on Postgres in any case, it is the intended text; and on SQLite it
      has this many "?" more than appended arguments. */
  ghost predicate TextDone(d: Driver, a: seq<GoValue>, b: seq<GoValue>, fits: bool, surplus: int, t: Text, inline: Text) {
    && a <= b
    && (fits || d.Postgres? ==> Means(d, a, b, t, inline))
    && (d.SQLite? ==> Holes(t) - (|b| - |a|) == surplus)
    && (d.SQLite? ==> Ranged(t, |a|, |b|) && (Lined(t, |a|, |b|) <==> fits))
    && (d.Postgres? ==> Within(t, |a|, |b|) && (Covers(t, |a|, |b|) <==> fits))
  }

  lemma RenderedDone(d: Driver, a: seq<GoValue>, b: seq<GoValue>, t: Text, inline: Text)
    requires Renders(d, a, b, t, inline)
    ensures TextDone(d, a, b, true, 0, t, inline)
  {
    hide Resolve, Ranged, Numbering;
    if d.SQLite? { RendersLined(d, a, b, t, inline); }
  }

  lemma DoneRenders(d: Driver, a: seq<GoValue>, b: seq<GoValue>, n: int, t: Text, inline: Text)
    requires TextDone(d, a, b, true, n, t, inline)
    ensures Renders(d, a, b, t, inline)
  {
  }

  // ---- renderers ----------------------------------------------------------------------

  lemma BoundsSnoc(vs: seq<GoValue>, v: GoValue)
    ensures Bounds(vs + [v]) == Bounds(vs) + [[Bound(v)]] && |Bounds(vs)| == |vs|
    decreases |vs|
  {
    assert (vs + [v])[..|vs|] == vs;
    if vs != [] { BoundsSnoc(vs[..|vs| - 1], vs[|vs| - 1]); assert vs == vs[..|vs| - 1] + [vs[|vs| - 1]]; }
  }

  /** A column rendered while the arguments grew from a: what the predicates below
      are handed. At most one argument was bound for it. */
  ghost predicate ColumnReady(p: Binder, a: seq<GoValue>, col: Text, icol: Text)
    reads p
  {
    Renders(p.driver, a, p.args, col, icol) && |p.args| - |a| <= 1
  }

  /** What a predicate over such a column leaves: in line with its arguments exactly
      when nothing was bound for the column, or it is written as often as the driver
      needs. */
  ghost predicate PredicateDone(p: Binder, a: seq<GoValue>, bound: int, uses: nat, t: Text, inline: Text)
    reads p
  {
    TextDone(p.driver, a, p.args, bound == 0 || UsesFit(p.driver, uses), (uses - 1) * bound, t, inline)
  }

  lemma ConstantDone(p: Binder, a: seq<GoValue>, col: Text, icol: Text, t: Text)
    requires ColumnReady(p, a, col, icol) && NoHoles(t) && Holes(t) == 0
    ensures PredicateDone(p, a, |p.args| - |a|, 0, t, t)
  {
    PlainRenders(p.driver, p.args, t);
    NoHolesNumber(t, |a|);
    ResolveIgnoresStart(t, p.args, |p.args|, |a|);
    if p.driver.Postgres? && |p.args| > |a| { assert Numbered(|p.args|) !in t; }
  }

  /** col followed by fixed text. */
  lemma Suffixed(d: Driver, a: seq<GoValue>, b: seq<GoValue>, s: Text, s': Text, t: Text)
    requires Renders(d, a, b, s, s') && NoHoles(t)
    ensures Renders(d, a, b, s + t, s' + t)
  {
    PlainRenders(d, b, t);
    RendersConcat(d, a, b, b, s, s', t, t);
  }

  lemma Prefixed(d: Driver, a: seq<GoValue>, b: seq<GoValue>, t: Text, s: Text, s': Text)
    requires Renders(d, a, b, s, s') && NoHoles(t)
    ensures Renders(d, a, b, t + s, t + s')
  {
    PlainRenders(d, a, t);
    RendersConcat(d, a, a, b, t, t, s, s');
  }

  lemma OnceDone(p: Binder, a: seq<GoValue>, bound: int, t: Text, inline: Text)
    requires Renders(p.driver, a, p.args, t, inline)
    ensures PredicateDone(p, a, bound, 1, t, inline)
  {
    RenderedDone(p.driver, a, p.args, t, inline);
  }

  /** prefix col middle ? suffix, the column written once. */
  method OneArgument(col: Text, prefix: Text, middle: Text, val: GoValue, suffix: Text, p: Binder, ghost a: seq<GoValue>, ghost icol: Text)
    returns (t: Text)
    requires ColumnReady(p, a, col, icol)
    requires NoHoles(prefix) && NoHoles(middle) && NoHoles(suffix)
    modifies p
    ensures p.args == old(p.args) + [val]
    ensures Renders(p.driver, a, p.args, t, prefix + icol + middle + [Bound(val)] + suffix)
    ensures PredicateDone(p, a, |old(p.args)| - |a|, 1, t, prefix + icol + middle + [Bound(val)] + suffix)
  {
    hide Renders, Holes;
    ghost var b := p.args;
    var ph := p.Add(val);
    Prefixed(p.driver, a, b, prefix, col, icol);
    Suffixed(p.driver, a, b, prefix + col, prefix + icol, middle);
    RendersConcat(p.driver, a, b, p.args, prefix + col + middle, prefix + icol + middle, ph, [Bound(val)]);
    Suffixed(p.driver, a, p.args, prefix + col + middle + ph, prefix + icol + middle + [Bound(val)], suffix);
    t := prefix + col + middle + ph + suffix;
    OnceDone(p, a, |b| - |a|, t, prefix + icol + middle + [Bound(val)] + suffix);
  }

  method InPredicate(host: Host, col: Text, val: GoValue, p: Binder, negate: bool, ghost a: seq<GoValue>, ghost icol: Text) returns (t: Text)
    requires ColumnReady(p, a, col, icol)
    modifies p
    ensures PredicateDone(p, a, |old(p.args)| - |a|, if SplitFilterList(host, val) == [] then 0 else 1, t, InlineIn(icol, SplitFilterList(host, val), negate))
  {
    hide Renders, Holes, Join, Bounds;
    var vals := SplitFilterList(host, val);
    if |vals| == 0 {
      t := if negate then TRUE_PREDICATE else FALSE_PREDICATE;
      ConstantHoles();
      ConstantDone(p, a, col, icol, t);
      return;
    }
    ghost var b := p.args;
    var placeholders: seq<Text> := [];
    PlainRenders(p.driver, b, []);
    NoBounds(vals);
    var i := 0;
    while i < |vals|
      invariant 0 <= i <= |vals| && |placeholders| == i && |Bounds(vals[..i])| == i
      invariant Renders(p.driver, b, p.args, Join(placeholders, COMMA), Join(Bounds(vals[..i]), COMMA))
    {
      ghost var c := p.args;
      var ph := p.Add(vals[i]);
      BoundAdded(p.driver, b, c, p.args, placeholders, vals, i, ph);
      placeholders := placeholders + [ph];
      i := i + 1;
    }
    assert vals[..i] == vals;
    InListRendered(p.driver, a, b, p.args, col, icol, negate, Join(placeholders, COMMA), Join(Bounds(vals), COMMA));
    t := col + [Raw(if negate then "NOT IN" else "IN"), Raw("(")] + Join(placeholders, COMMA) + [Raw(")")];
    OnceDone(p, a, |b| - |a|, t, InlineIn(icol, vals, negate));
  }

  lemma NoBounds(vs: seq<GoValue>)
    ensures Bounds(vs[..0]) == [] && Join([], COMMA) == []
  {
  }

  lemma BoundAdded(d: Driver, a: seq<GoValue>, b: seq<GoValue>, c: seq<GoValue>, phs: seq<Text>, vs: seq<GoValue>, i: nat, ph: Text)
    requires i < |vs| && |phs| == i && |Bounds(vs[..i])| == i
    requires Renders(d, a, b, Join(phs, COMMA), Join(Bounds(vs[..i]), COMMA)) && Renders(d, b, c, ph, [Bound(vs[i])])
    ensures |Bounds(vs[..i + 1])| == i + 1
    ensures Renders(d, a, c, Join(phs + [ph], COMMA), Join(Bounds(vs[..i + 1]), COMMA))
  {
    hide Renders, Join, Bounds;
    RendersJoin(d, a, b, c, phs, Bounds(vs[..i]), COMMA, ph, [Bound(vs[i])]);
    BoundsSnoc(vs[..i], vs[i]);
    assert vs[..i + 1] == vs[..i] + [vs[i]];
  }

  lemma InListRendered(d: Driver, a: seq<GoValue>, b: seq<GoValue>, c: seq<GoValue>, col: Text, icol: Text, negate: bool, list: Text, ilist: Text)
    requires Renders(d, a, b, col, icol) && Renders(d, b, c, list, ilist)
    ensures var kw: Text := [Raw(if negate then "NOT IN" else "IN"), Raw("(")];
            Renders(d, a, c, col + kw + list + [Raw(")")], icol + kw + ilist + [Raw(")")])
  {
    hide Renders;
    var kw: Text := [Raw(if negate then "NOT IN" else "IN"), Raw("(")];
    Suffixed(d, a, b, col, icol, kw);
    RendersConcat(d, a, b, c, col + kw, icol + kw, list, ilist);
    Suffixed(d, a, c, col + kw + list, icol + kw + ilist, [Raw(")")]);
  }

  lemma ConstantHoles()
    ensures Holes(FALSE_PREDICATE) == 0 && Holes(TRUE_PREDICATE) == 0
  {
    assert Holes(FALSE_PREDICATE[1..]) == 0 by { assert Holes(FALSE_PREDICATE[1..][1..]) == 0; }
    assert Holes(TRUE_PREDICATE[1..]) == 0 by { assert Holes(TRUE_PREDICATE[1..][1..]) == 0; }
  }

  /** Writes the column twice. */
  method BetweenPredicate(host: Host, col: Text, val: GoValue, p: Binder, ghost a: seq<GoValue>, ghost icol: Text) returns (t: Text)
    requires ColumnReady(p, a, col, icol)
    modifies p
    ensures PredicateDone(p, a, |old(p.args)| - |a|, if |SplitFilterList(host, val)| == 2 then 2 else 0, t, InlineBetween(icol, SplitFilterList(host, val)))
  {
    hide Renders, Holes;
    var bounds := SplitFilterList(host, val);
    if |bounds| != 2 {
      ConstantHoles();
      ConstantDone(p, a, col, icol, FALSE_PREDICATE);
      return FALSE_PREDICATE;
    }
    ghost var b := p.args;
    var lo := p.Add(bounds[0]);
    ghost var c := p.args;
    var hi := p.Add(bounds[1]);
    var open, ge, and, le, close: Text := [Raw("(")], [Raw(">=")], [Raw("AND")], [Raw("<=")], [Raw(")")];
    var head := open + col + ge + lo + and;
    t := head + (col + le + hi + close);
    Prefixed(p.driver, a, b, open, col, icol);
    Suffixed(p.driver, a, b, open + col, open + icol, ge);
    RendersConcat(p.driver, a, b, c, open + col + ge, open + icol + ge, lo, [Bound(bounds[0])]);
    ghost var ihead := open + icol + ge + [Bound(bounds[0])] + and;
    Suffixed(p.driver, a, c, open + col + ge + lo, open + icol + ge + [Bound(bounds[0])], and);
    ghost var inline := ihead + (icol + le + [Bound(bounds[1])] + close);
    assert inline == InlineBetween(icol, bounds);
    if Holes(col) == 0 {
      RepeatRenders(p.driver, a, b, c, head, ihead, col, icol);
      Suffixed(p.driver, a, c, head + col, ihead + icol, le);
      RendersConcat(p.driver, a, c, p.args, head + col + le, ihead + icol + le, hi, [Bound(bounds[1])]);
      Suffixed(p.driver, a, p.args, head + col + le + hi, ihead + icol + le + [Bound(bounds[1])], close);
      assert head + col + le + hi + close == t && ihead + icol + le + [Bound(bounds[1])] + close == inline;
      RenderedDone(p.driver, a, p.args, t, inline);
    }
    if p.driver.SQLite? {
      BetweenHoles(p.driver, a, b, c, p.args, col, icol, head, ihead, hi, le, close, t);
      BetweenLined(p.driver, a, b, c, p.args, col, icol, head, ihead, hi, [Bound(bounds[1])], le, close, t, inline);
      ColumnHoles(a, b, col, icol);
    } else {
      NumberedHoles(a, b, col, icol);
    }
  }

  lemma ColumnHoles(a: seq<GoValue>, b: seq<GoValue>, col: Text, icol: Text)
    requires Renders(SQLite, a, b, col, icol)
    ensures Holes(col) == |b| - |a|
  {
  }

  lemma NumberedHoles(a: seq<GoValue>, b: seq<GoValue>, col: Text, icol: Text)
    requires Renders(Postgres, a, b, col, icol)
    ensures Holes(col) == 0
  {
  }

  lemma BetweenHoles(d: Driver, a: seq<GoValue>, b: seq<GoValue>, c: seq<GoValue>, e: seq<GoValue>, col: Text, icol: Text,
                     head: Text, ihead: Text, hi: Text, le: Text, close: Text, t: Text)
    requires Renders(d, a, b, col, icol) && Renders(d, a, c, head, ihead) && c <= e && |e| == |c| + 1
    requires NoHoles(le) && NoHoles(close) && Holes(hi) == if d.SQLite? then 1 else 0
    requires t == head + (col + le + hi + close)
    ensures a <= e && (d.SQLite? ==> Holes(t) - (|e| - |a|) == Holes(col))
  {
    hide Numbering, Resolve;
    HolesConcat(head, col + le + hi + close);
    HolesConcat(col + le + hi, close);
    HolesConcat(col + le, hi);
    HolesConcat(col, le);
    PlainRenders(d, e, le);
    PlainRenders(d, e, close);
  }

  /** The column's second "?" comes after the lower bound's and was written for an
      earlier argument. */
  lemma BetweenOutOfLine(col: Text, head: Text, tail: Text, a: nat, b: nat, c: nat, e: nat)
    requires a <= b < c && Ranged(col, a, b) && Holes(col) > 0 && Lined(head, a, c)
    ensures !Lined(head + (col + tail), a, e)
  {
    hide Ranged;
    if Numbering(head + (col + tail), a) {
      NumberingConcat(head, col + tail, a);
      NumberingConcat(col, tail, c);
      NumberingStarts(col, c, a, b);
      assert false;
    }
  }

  lemma BetweenRanged(head: Text, col: Text, le: Text, hi: Text, close: Text, a: nat, b: nat, c: nat, e: nat)
    requires a <= b <= c <= e && Ranged(head, a, c) && Ranged(col, a, b) && Ranged(hi, c, e) && NoHoles(le) && NoHoles(close)
    ensures Ranged(head + (col + le + hi + close), a, e)
  {
  }

  lemma BetweenLined(d: Driver, a: seq<GoValue>, b: seq<GoValue>, c: seq<GoValue>, e: seq<GoValue>, col: Text, icol: Text,
                     head: Text, ihead: Text, hi: Text, ihi: Text, le: Text, close: Text, t: Text, inline: Text)
    requires d.SQLite? && Renders(d, a, b, col, icol) && Renders(d, a, c, head, ihead) && Renders(d, c, e, hi, ihi)
    requires |c| == |b| + 1 && NoHoles(le) && NoHoles(close)
    requires t == head + (col + le + hi + close)
    requires Holes(col) == 0 ==> Renders(d, a, e, t, inline)
    ensures Ranged(t, |a|, |e|) && (Lined(t, |a|, |e|) <==> Holes(col) == 0)
  {
    hide Numbering, Resolve, Ranged, NoHoles, InScope;
    RendersLined(d, a, b, col, icol);
    RendersLined(d, a, c, head, ihead);
    RendersLined(d, c, e, hi, ihi);
    BetweenRanged(head, col, le, hi, close, |a|, |b|, |c|, |e|);
    assert t == head + (col + (le + hi + close));
    if Holes(col) == 0 {
      RendersLined(d, a, e, t, inline);
    } else {
      BetweenOutOfLine(col, head, le + hi + close, |a|, |b|, |c|, |e|);
    }
  }

  method SubstringPredicate(host: Host, col: Text, op: Op, val: GoValue, p: Binder, ghost a: seq<GoValue>, ghost icol: Text) returns (t: Text)
    requires ColumnReady(p, a, col, icol) && SubstringShape(op).Some?
    modifies p
    ensures PredicateDone(p, a, |old(p.args)| - |a|, 1, t,
              InlineSubstring(icol, LikePattern.Pattern(SubstringShape(op).value, SubstringValue(host, val)), p.driver))
  {
    var pattern := LikePattern.Pattern(SubstringShape(op).value, SubstringValue(host, val));
    if p.driver == Postgres {
      t := OneArgument(col, [], [Raw("ILIKE")], Str(pattern), [Raw("ESCAPE"), Raw("'\\'")], p, a, icol);
      assert [] + icol + [Raw("ILIKE")] + [Bound(Str(pattern))] + [Raw("ESCAPE"), Raw("'\\'")] == InlineSubstring(icol, pattern, Postgres);
    } else {
      t := OneArgument(col, [Raw("LOWER"), Raw("(")], [Raw(")"), Raw("LIKE"), Raw("LOWER"), Raw("(")], Str(pattern),
                       [Raw(")"), Raw("ESCAPE"), Raw("'\\'")], p, a, icol);
      assert [Raw("LOWER"), Raw("(")] + icol + [Raw(")"), Raw("LIKE"), Raw("LOWER"), Raw("(")] + [Bound(Str(pattern))]
             + [Raw(")"), Raw("ESCAPE"), Raw("'\\'")] == InlineSubstring(icol, pattern, SQLite);
    }
  }

  /** Renders one operator against an already-rendered column; an operator it does
      not implement matches nothing. */
  method FilterPredicate(host: Host, col: Text, op: Op, val: GoValue, p: Binder, ghost a: seq<GoValue>, ghost icol: Text) returns (t: Text)
    requires ColumnReady(p, a, col, icol)
    modifies p
    ensures PredicateDone(p, a, |old(p.args)| - |a|, ColumnUses(host, op, val), t, InlinePredicate(host, icol, op, val, p.driver))
  {
    hide Renders, Holes, PredicateDone, LikePattern.Pattern, SplitFilterList, Join, Bounds, InlineIn, InlineBetween, InlineSubstring;
    ghost var inline := InlinePredicate(host, icol, op, val, p.driver);
    if CompareSign(op).Some? {
      t := OneArgument(col, [], [Raw(CompareSign(op).value)], val, [], p, a, icol);
      assert [] + icol + [Raw(CompareSign(op).value)] + [Bound(val)] + [] == inline;
      return;
    }
    match op {
      case IsNull =>
        Suffixed(p.driver, a, p.args, col, icol, [Raw("IS NULL")]);
        t := col + [Raw("IS NULL")];
        OnceDone(p, a, |p.args| - |a|, t, inline);
      case NotNull =>
        Suffixed(p.driver, a, p.args, col, icol, [Raw("IS NOT NULL")]);
        t := col + [Raw("IS NOT NULL")];
        OnceDone(p, a, |p.args| - |a|, t, inline);
      case Like =>
        t := OneArgument(col, [], [Raw("LIKE")], val, [], p, a, icol);
        assert [] + icol + [Raw("LIKE")] + [Bound(val)] + [] == inline;
      case ILike =>
        if p.driver == Postgres {
          t := OneArgument(col, [], [Raw("ILIKE")], val, [], p, a, icol);
          assert [] + icol + [Raw("ILIKE")] + [Bound(val)] + [] == inline;
        } else {
          t := OneArgument(col, [Raw("LOWER"), Raw("(")], [Raw(")"), Raw("LIKE"), Raw("LOWER"), Raw("(")], val, [Raw(")")], p, a, icol);
          assert [Raw("LOWER"), Raw("(")] + icol + [Raw(")"), Raw("LIKE"), Raw("LOWER"), Raw("(")] + [Bound(val)] + [Raw(")")] == inline;
        }
      case Contains => t := SubstringPredicate(host, col, op, val, p, a, icol);
      case StartsWith => t := SubstringPredicate(host, col, op, val, p, a, icol);
      case EndsWith => t := SubstringPredicate(host, col, op, val, p, a, icol);
      case In => t := InPredicate(host, col, val, p, false, a, icol);
      case NotIn => t := InPredicate(host, col, val, p, true, a, icol);
      case Between => t := BetweenPredicate(host, col, val, p, a, icol);
      case _ =>
        t := FALSE_PREDICATE;
        ConstantHoles();
        ConstantDone(p, a, col, icol, t);
    }
  }
}
