/** Whole WHERE bodies: they read back, they select what the filters select, and
    the two drivers agree. */
module FilterTheorems {
  import opened Wrappers
  import opened SqlText
  import opened Filters
  import opened FilterBuild
  import opened FilterMeaning
  import P = SqlParser
  import LikePattern

  // ---- one filter: the predicate its text reads back as ----------------------------------

  function OpPred(host: Host, o: P.Operand, op: Op, val: GoValue, d: Driver): P.Pred {
    if CompareSign(op).Some? then P.Compare(CompareSign(op).value, o, P.Lit(val))
    else if SubstringShape(op).Some? then
      var pattern := P.Lit(Str(LikePattern.Pattern(SubstringShape(op).value, SubstringValue(host, val))));
      if d.Postgres? then P.LikeTest(o, pattern, true, true) else P.LikeTest(P.Lower(o), P.Lower(pattern), false, true)
    else match op
      case IsNull => P.NullTest(o, false)
      case NotNull => P.NullTest(o, true)
      case Like => P.LikeTest(o, P.Lit(val), false, false)
      case ILike => if d.Postgres? then P.LikeTest(o, P.Lit(val), true, false) else P.LikeTest(P.Lower(o), P.Lower(P.Lit(val)), false, false)
      case In => var vs := SplitFilterList(host, val); if vs == [] then FALSE_PRED else P.InTest(o, Lits(vs), false)
      case NotIn => var vs := SplitFilterList(host, val); if vs == [] then TRUE_PRED else P.InTest(o, Lits(vs), true)
      case Between =>
        var vs := SplitFilterList(host, val);
        if |vs| != 2 then FALSE_PRED else P.And(P.Compare(">=", o, P.Lit(vs[0])), P.Compare("<=", o, P.Lit(vs[1])))
      case _ => FALSE_PRED
  }

  lemma OpReads(host: Host, col: Text, o: P.Operand, op: Op, val: GoValue, d: Driver)
    requires ReadsAs(col, o)
    ensures ReadsTight(InlinePredicate(host, col, op, val, d), OpPred(host, o, op, val, d))
  {
    hide ReadsAs, ReadsTight;
    ConstantReads();
    var esc: Text := [Raw("ESCAPE"), Raw("'\\'")];
    if CompareSign(op).Some? {
      CompareReads(col, o, CompareSign(op).value, val);
    } else if SubstringShape(op).Some? {
      var v := Str(LikePattern.Pattern(SubstringShape(op).value, SubstringValue(host, val)));
      LikeReads(col, o, v, true, true);
      LowerLikeReads(col, o, v, true);
      assert col + ([Raw("ILIKE"), Bound(v)] + esc) == col + [Raw("ILIKE"), Bound(v), Raw("ESCAPE"), Raw("'\\'")];
      assert [Raw("LOWER"), Raw("(")] + col + [Raw(")"), Raw("LIKE"), Raw("LOWER"), Raw("("), Bound(v), Raw(")")] + esc
             == InlineSubstring(col, LikePattern.Pattern(SubstringShape(op).value, SubstringValue(host, val)), SQLite);
    } else {
      match op {
        case IsNull => NullTestReads(col, o, false);
        case NotNull => NullTestReads(col, o, true);
        case Like =>
          LikeReads(col, o, val, false, false);
          assert [Raw("LIKE"), Bound(val)] + [] == [Raw("LIKE"), Bound(val)];
        case ILike =>
          LikeReads(col, o, val, true, false);
          LowerLikeReads(col, o, val, false);
          assert [Raw("ILIKE"), Bound(val)] + [] == [Raw("ILIKE"), Bound(val)];
          var t: Text := [Raw("LOWER"), Raw("(")] + col + [Raw(")"), Raw("LIKE"), Raw("LOWER"), Raw("("), Bound(val), Raw(")")];
          assert t + [] == t;
        case In => if SplitFilterList(host, val) != [] { InReads(col, o, SplitFilterList(host, val), false); }
        case NotIn => if SplitFilterList(host, val) != [] { InReads(col, o, SplitFilterList(host, val), true); }
        case Between =>
          var vs := SplitFilterList(host, val);
          if |vs| == 2 {
            BetweenReads(col, o, vs[0], vs[1]);
            assert vs == [vs[0], vs[1]];
          }
        case _ =>
      }
    }
  }

  function HasPred(host: Host, o: P.Operand, fm: Field, val: GoValue, d: Driver): Option<P.Pred> {
    if fm.jsonArray then
      match host.marshal(val)
      case None => None
      case Some(lit) => Some(if d.Postgres? then P.JsonContains(o, Str(lit)) else P.JsonEach(o, P.Lit(Str(lit))))
    else if fm.jsonObject then
      match CutPair(host.sprint(val))
      case None => None
      case Some(pair) =>
        if pair.0 == "" || !JsonPathSafeKey(pair.0) then None
        else if d.Postgres? then
          match host.marshalPair(pair.0, pair.1) case None => None case Some(lit) => Some(P.JsonContains(o, Str(lit)))
        else
          match host.marshal(Str(pair.1))
          case None => None
          case Some(lit) => Some(P.Compare("=", P.JsonQuote(P.JsonExtract(o, Str("$.\"" + pair.0 + "\""))), P.Lit(Str(lit))))
    else None
  }

  lemma HasReads(host: Host, col: Text, o: P.Operand, fm: Field, val: GoValue, d: Driver)
    requires ReadsAs(col, o)
    ensures InlineHas(host, col, fm, val, d).Some? <==> HasPred(host, o, fm, val, d).Some?
    ensures InlineHas(host, col, fm, val, d).Some? ==> ReadsTight(InlineHas(host, col, fm, val, d).value, HasPred(host, o, fm, val, d).value)
  {
    hide ReadsAs, ReadsTight, CutPair, JsonPathSafeKey;
    if HasPred(host, o, fm, val, d).Some? {
      match HasPred(host, o, fm, val, d).value {
        case JsonContains(_, v) => ContainsReads(col, o, v);
        case JsonEach(_, lit) => EachReads(col, o, lit.v);
        case Compare(_, l, r) => ObjectReads(col, o, l.o.path, r.v);
        case _ =>
      }
    }
  }

  function CondPred(host: Host, model: Model, f: Filter, d: Driver): P.Pred {
    if f.isLocale || f.isNested then OpPred(host, RemoteOperand(d, model, f), f.op, f.value, d)
    else match ResolveFilterField(model, f.field)
      case None => FALSE_PRED
      case Some(fm) =>
        var o := P.ColumnRef(model.table, fm.dbName);
        if FieldComparisonOp(f.op).Some? then
          match ResolveFilterField(model, f.valueField)
          case None => FALSE_PRED
          case Some(rhs) => P.Compare(FieldComparisonOp(f.op).value, o, P.ColumnRef(model.table, rhs.dbName))
        else if f.op == Has || f.op == NotHas then
          match HasPred(host, o, fm, f.value, d)
          case None => FALSE_PRED
          case Some(p) => if f.op == NotHas then P.Not(p) else p
        else OpPred(host, o, f.op, host.normalize(fm.kind, f.op, f.value), d)
  }

  lemma FieldCompareReads(table: string, left: string, sign: string, right: string)
    requires P.IsSign(sign)
    ensures ReadsTight(Column(table, left) + [Raw(sign)] + Column(table, right), P.Compare(sign, P.ColumnRef(table, left), P.ColumnRef(table, right)))
  {
    var tail := [Raw(sign)] + Column(table, right);
    forall rest | Follows(rest)
      ensures P.ParseTail(P.ColumnRef(table, left), tail + rest)
              == Some((P.Compare(sign, P.ColumnRef(table, left), P.ColumnRef(table, right)), rest))
    {
      var r := Column(table, right) + rest;
      assert (tail + rest)[1..] == r && r[3..] == rest;
    }
    ColumnReads(table, left);
    TailReads(Column(table, left), P.ColumnRef(table, left), tail, P.Compare(sign, P.ColumnRef(table, left), P.ColumnRef(table, right)));
    assert Column(table, left) + tail == Column(table, left) + [Raw(sign)] + Column(table, right);
  }

  /** Every rendered filter reads back as its predicate and exposes nothing to the
      ANDs and ORs around it. */
  lemma CondReads(host: Host, model: Model, f: Filter, d: Driver)
    ensures ReadsTight(InlineCond(host, model, f, d), CondPred(host, model, f, d))
  {
    hide ReadsAs, ReadsTight, InlinePredicate, OpPred, HasPred, InlineHas, InlineColumn, RemoteOperand;
    ConstantReads();
    if f.isLocale || f.isNested {
      RemoteReads(d, model, f);
      OpReads(host, InlineColumn(model, f, d), RemoteOperand(d, model, f), f.op, f.value, d);
    } else {
      match ResolveFilterField(model, f.field) {
        case None =>
        case Some(fm) =>
          var col, o := Column(model.table, fm.dbName), P.ColumnRef(model.table, fm.dbName);
          ColumnReads(model.table, fm.dbName);
          if FieldComparisonOp(f.op).Some? {
            var rhs := ResolveFilterField(model, f.valueField);
            if rhs.Some? { FieldCompareReads(model.table, fm.dbName, FieldComparisonOp(f.op).value, rhs.value.dbName); }
          } else if f.op == Has || f.op == NotHas {
            HasReads(host, col, o, fm, f.value, d);
            if InlineHas(host, col, fm, f.value, d).Some? && f.op == NotHas {
              NotReads(InlineHas(host, col, fm, f.value, d).value, HasPred(host, o, fm, f.value, d).value);
            }
          } else {
            OpReads(host, col, o, f.op, host.normalize(fm.kind, f.op, f.value), d);
          }
      }
    }
  }

  // ---- one filter: the predicate means the filter --------------------------------------------

  lemma {:induction false} FoldsOnce(e: P.Engine, s: string)
    requires e.Lawful()
    ensures LikePattern.Fold(e.likeFold, LikePattern.Fold(e.lower, s)) == LikePattern.Fold(e.lower, s)
  {
    if s != "" {
      FoldsOnce(e, s[1..]);
      var t := LikePattern.Fold(e.lower, s);
      assert t[0] == e.lower(s[0]) && t[1..] == LikePattern.Fold(e.lower, s[1..]);
    }
  }

  /** LOWER(x) LIKE LOWER(y) is x ILIKE y. */
  lemma LowerLikeIsILike(e: P.Engine, row: P.Row, l: P.Operand, r: P.Operand, escaped: bool)
    requires e.Lawful()
    ensures P.Holds(e, row, P.LikeTest(P.Lower(l), P.Lower(r), false, escaped)) == P.Holds(e, row, P.LikeTest(l, r, true, escaped))
  {
    var x, y := P.Eval(e, row, l), P.Eval(e, row, r);
    FoldsOnce(e, e.text(x));
    FoldsOnce(e, e.text(y));
    assert e.text(Str(LikePattern.Fold(e.lower, e.text(x)))) == LikePattern.Fold(e.lower, e.text(x));
    assert e.text(Str(LikePattern.Fold(e.lower, e.text(y)))) == LikePattern.Fold(e.lower, e.text(y));
  }

  lemma SubstringMeans(e: P.Engine, row: P.Row, o: P.Operand, shape: LikePattern.Shape, v: string)
    requires e.Lawful()
    ensures P.Holds(e, row, P.LikeTest(o, P.Lit(Str(LikePattern.Pattern(shape, v))), true, true))
            == if P.Eval(e, row, o).Nil? then P.Null
               else P.Of(LikePattern.Shaped(shape, LikePattern.Fold(e.lower, v), LikePattern.Fold(e.lower, e.text(P.Eval(e, row, o)))))
  {
    hide LikePattern.Matches, LikePattern.Pattern, LikePattern.Shaped;
    var pattern := LikePattern.Pattern(shape, v);
    LikePattern.FoldPattern(e.lower, shape, v);
    LikePattern.PatternIsExact(shape, LikePattern.Fold(e.lower, v), LikePattern.Fold(e.lower, e.text(P.Eval(e, row, o))));
    assert e.text(Str(pattern)) == pattern;
  }

  lemma {:induction false} AnyMeans(e: P.Engine, row: P.Row, x: GoValue, vs: seq<GoValue>)
    ensures P.AnyEqual(e, row, x, Lits(vs)) == EqualAny(e, x, vs)
  {
    if vs != [] {
      AnyMeans(e, row, x, vs[1..]);
      assert Lits(vs)[1..] == Lits(vs[1..]);
    }
  }

  lemma ConstantsMean(e: P.Engine, row: P.Row)
    requires e.Lawful()
    ensures P.Holds(e, row, FALSE_PRED) == P.False && P.Holds(e, row, TRUE_PRED) == P.True
  {
  }

  lemma SubstringOpMeans(host: Host, e: P.Engine, d: Driver, row: P.Row, o: P.Operand, op: Op, val: GoValue)
    requires e.Lawful() && SubstringShape(op).Some?
    ensures P.Holds(e, row, OpPred(host, o, op, val, d)) == OpTruth(host, e, d, op, P.Eval(e, row, o), val)
  {
    hide LikePattern.Shaped, LikePattern.Pattern, LikePattern.Fold, P.Eval, P.Holds, SubstringValue, P.Engine.Lawful;
    var v := SubstringValue(host, val);
    SubstringMeans(e, row, o, SubstringShape(op).value, v);
    LowerLikeIsILike(e, row, o, P.Lit(Str(LikePattern.Pattern(SubstringShape(op).value, v))), true);
  }

  lemma ListOpMeans(host: Host, e: P.Engine, d: Driver, row: P.Row, o: P.Operand, op: Op, val: GoValue)
    requires e.Lawful() && (op == In || op == NotIn)
    ensures P.Holds(e, row, OpPred(host, o, op, val, d)) == OpTruth(host, e, d, op, P.Eval(e, row, o), val)
  {
    hide P.Eval, SplitFilterList;
    ConstantsMean(e, row);
    AnyMeans(e, row, P.Eval(e, row, o), SplitFilterList(host, val));
  }

  lemma OpMeans(host: Host, e: P.Engine, d: Driver, row: P.Row, o: P.Operand, op: Op, val: GoValue)
    requires e.Lawful()
    ensures P.Holds(e, row, OpPred(host, o, op, val, d)) == OpTruth(host, e, d, op, P.Eval(e, row, o), val)
  {
    hide SplitFilterList, P.Engine.Lawful, LikePattern.Matches, LikePattern.Fold, P.AnyEqual;
    if SubstringShape(op).Some? {
      SubstringOpMeans(host, e, d, row, o, op, val);
    } else if op == In || op == NotIn {
      ListOpMeans(host, e, d, row, o, op, val);
    } else {
      ConstantsMean(e, row);
      LowerLikeIsILike(e, row, o, P.Lit(val), false);
    }
  }

  lemma ObjectMeans(e: P.Engine, row: P.Row, o: P.Operand, path: string, lit: string)
    requires e.Lawful()
    ensures var x := P.Eval(e, row, o);
            P.Holds(e, row, P.Compare("=", P.JsonQuote(P.JsonExtract(o, Str(path))), P.Lit(Str(lit))))
            == P.Compare3(e, "=", e.quote(if x.Nil? then Nil else e.extract(x, path)), Str(lit))
  {
    assert e.text(Str(path)) == path;
    assert P.Eval(e, row, P.JsonExtract(o, Str(path))) == if P.Eval(e, row, o).Nil? then Nil else e.extract(P.Eval(e, row, o), path);
  }

  lemma HasMeans(host: Host, e: P.Engine, d: Driver, row: P.Row, o: P.Operand, fm: Field, val: GoValue)
    requires e.Lawful()
    ensures HasPred(host, o, fm, val, d).Some? <==> HasTruth(host, e, d, fm, P.Eval(e, row, o), val).Some?
    ensures HasPred(host, o, fm, val, d).Some? ==>
              P.Holds(e, row, HasPred(host, o, fm, val, d).value) == HasTruth(host, e, d, fm, P.Eval(e, row, o), val).value
  {
    hide CutPair, JsonPathSafeKey, LikePattern.FoldsLetters;
    if HasPred(host, o, fm, val, d).Some? {
      match HasPred(host, o, fm, val, d).value {
        case Compare(_, l, r) => ObjectMeans(e, row, o, l.o.path.s, r.v.s);
        case JsonContains(_, v) => assert e.text(Str(v.s)) == v.s;
        case JsonEach(_, lit) => assert e.text(Str(lit.v.s)) == lit.v.s;
        case _ =>
      }
    }
  }

  lemma RemoteMeans(e: P.Engine, model: Model, f: Filter, d: Driver, row: P.Row)
    requires e.Lawful()
    ensures P.Eval(e, row, RemoteOperand(d, model, f)) == RemoteValue(e, d, model, f, row)
  {
    assert e.text(Str(f.localeKey)) == f.localeKey && e.text(Str("$." + f.localeKey)) == "$." + f.localeKey;
  }

  lemma FieldCompareMeans(host: Host, e: P.Engine, model: Model, f: Filter, d: Driver, row: P.Row)
    requires !f.isLocale && !f.isNested && ResolveFilterField(model, f.field).Some? && FieldComparisonOp(f.op).Some?
    requires P.Holds(e, row, FALSE_PRED) == P.False
    ensures P.Holds(e, row, CondPred(host, model, f, d)) == Truth(host, e, d, model, f, row)
  {
    hide OpPred, OpTruth, HasPred, HasTruth, ResolveFilterField;
  }

  /** Every filter's predicate is true, false or NULL on a row just as the filter is. */
  lemma CondMeans(host: Host, e: P.Engine, model: Model, f: Filter, d: Driver, row: P.Row)
    requires e.Lawful()
    ensures P.Holds(e, row, CondPred(host, model, f, d)) == Truth(host, e, d, model, f, row)
  {
    hide OpPred, OpTruth, HasPred, HasTruth, ResolveFilterField, RemoteOperand, RemoteValue, P.Engine.Lawful;
    ConstantsMean(e, row);
    if f.isLocale || f.isNested {
      RemoteMeans(e, model, f, d, row);
      OpMeans(host, e, d, row, RemoteOperand(d, model, f), f.op, f.value);
    } else if ResolveFilterField(model, f.field).Some? {
      if FieldComparisonOp(f.op).Some? {
        FieldCompareMeans(host, e, model, f, d, row);
      } else {
        var fm := ResolveFilterField(model, f.field).value;
        var o := P.ColumnRef(model.table, fm.dbName);
        HasMeans(host, e, d, row, o, fm, f.value);
        OpMeans(host, e, d, row, o, f.op, host.normalize(fm.kind, f.op, f.value));
      }
    }
  }

  // ---- joined parts ------------------------------------------------------------------------

  function AndAll(ps: seq<P.Pred>): P.Pred
    requires ps != []
  {
    if |ps| == 1 then ps[0] else P.And(ps[0], AndAll(ps[1..]))
  }

  function OrAll(ps: seq<P.Pred>): P.Pred
    requires ps != []
  {
    if |ps| == 1 then ps[0] else P.Or(ps[0], OrAll(ps[1..]))
  }

  ghost predicate AllTight(ts: seq<Text>, ps: seq<P.Pred>) {
    |ts| == |ps| && forall i :: 0 <= i < |ts| ==> ReadsTight(ts[i], ps[i])
  }

  lemma {:induction false} AndJoinReads(ts: seq<Text>, ps: seq<P.Pred>, rest: Text)
    requires AllTight(ts, ps) && ts != [] && EndsWhere(rest)
    ensures P.ParseAnd(Join(ts, AND) + rest) == Some((AndAll(ps), rest))
    ensures P.ParseOr(Join(ts, AND) + rest) == Some((AndAll(ps), rest))
    decreases |ts|
  {
    hide ReadsTight, P.ParseAnd, P.ParseOr;
    if |ts| == 1 {
      TightReadsAnd(ts[0], ps[0], rest);
    } else {
      JoinCons(ts, AND);
      AndJoinReads(ts[1..], ps[1..], rest);
      AndStep(ts[0], ps[0], Join(ts[1..], AND) + rest, AndAll(ps[1..]), rest);
      assert Join(ts, AND) + rest == ts[0] + ([Raw("AND")] + (Join(ts[1..], AND) + rest));
    }
  }

  lemma {:induction false} OrJoinReads(ts: seq<Text>, ps: seq<P.Pred>, rest: Text)
    requires AllTight(ts, ps) && ts != [] && P.At(rest, ")")
    ensures P.ParseOr(Join(ts, OR) + rest) == Some((OrAll(ps), rest))
    decreases |ts|
  {
    hide ReadsTight, P.ParseAnd, P.ParseOr;
    if |ts| == 1 {
      TightReadsAnd(ts[0], ps[0], rest);
    } else {
      JoinCons(ts, OR);
      OrJoinReads(ts[1..], ps[1..], rest);
      OrStep(ts[0], ps[0], Join(ts[1..], OR) + rest, OrAll(ps[1..]), rest);
      assert Join(ts, OR) + rest == ts[0] + ([Raw("OR")] + (Join(ts[1..], OR) + rest));
    }
  }

  lemma {:induction false} AndAllMeans(e: P.Engine, row: P.Row, ps: seq<P.Pred>)
    requires ps != []
    ensures P.Holds(e, row, AndAll(ps)) == P.True <==> forall i :: 0 <= i < |ps| ==> P.Holds(e, row, ps[i]) == P.True
  {
    if |ps| > 1 {
      AndAllMeans(e, row, ps[1..]);
      assert forall i :: 1 <= i < |ps| ==> ps[i] == ps[1..][i - 1];
    }
  }

  lemma {:induction false} OrAllMeans(e: P.Engine, row: P.Row, ps: seq<P.Pred>)
    requires ps != []
    ensures P.Holds(e, row, OrAll(ps)) == P.True <==> exists i :: 0 <= i < |ps| && P.Holds(e, row, ps[i]) == P.True
  {
    if |ps| > 1 {
      OrAllMeans(e, row, ps[1..]);
      assert forall i :: 1 <= i < |ps| ==> ps[i] == ps[1..][i - 1];
      if i :| 0 <= i < |ps| && P.Holds(e, row, ps[i]) == P.True {
        if i > 0 { assert P.Holds(e, row, ps[1..][i - 1]) == P.True; }
      }
    }
  }

  function CondPreds(host: Host, model: Model, fs: seq<Filter>, d: Driver): (r: seq<P.Pred>)
    ensures |r| == |fs|
  {
    if fs == [] then [] else CondPreds(host, model, fs[..|fs| - 1], d) + [CondPred(host, model, fs[|fs| - 1], d)]
  }

  lemma {:induction false} CondsTight(host: Host, model: Model, fs: seq<Filter>, d: Driver)
    ensures AllTight(Conds(host, model, fs, d), CondPreds(host, model, fs, d))
    decreases |fs|
  {
    hide CondPred, InlineCond, ReadsTight;
    if fs != [] {
      CondsTight(host, model, fs[..|fs| - 1], d);
      CondReads(host, model, fs[|fs| - 1], d);
    }
  }

  lemma {:induction false} CondsMean(host: Host, e: P.Engine, model: Model, fs: seq<Filter>, d: Driver, row: P.Row)
    requires e.Lawful()
    ensures forall i :: 0 <= i < |fs| ==> P.Holds(e, row, CondPreds(host, model, fs, d)[i]) == Truth(host, e, d, model, fs[i], row)
    decreases |fs|
  {
    hide CondPred, P.Holds, Truth;
    if fs != [] {
      CondsMean(host, e, model, fs[..|fs| - 1], d, row);
      CondMeans(host, e, model, fs[|fs| - 1], d, row);
    }
  }

  function GroupPred(host: Host, model: Model, fs: seq<Filter>, d: Driver): P.Pred
    requires fs != []
  {
    if |fs| == 1 then CondPred(host, model, fs[0], d) else OrAll(CondPreds(host, model, fs, d))
  }

  ghost predicate SomePasses(host: Host, e: P.Engine, d: Driver, model: Model, fs: seq<Filter>, row: P.Row) {
    exists i :: 0 <= i < |fs| && Passes(host, e, d, model, fs[i], row)
  }

  lemma GroupTight(host: Host, model: Model, fs: seq<Filter>, d: Driver)
    requires fs != []
    ensures ReadsTight(InlineGroup(host, model, fs, d), GroupPred(host, model, fs, d))
  {
    hide CondPred, InlineCond, ReadsTight, P.ParseOr, Join;
    if |fs| == 1 {
      CondReads(host, model, fs[0], d);
    } else {
      var ts, ps := Conds(host, model, fs, d), CondPreds(host, model, fs, d);
      CondsTight(host, model, fs, d);
      forall rest | P.At(rest, ")") ensures P.ParseOr(Join(ts, OR) + rest) == Some((OrAll(ps), rest)) { OrJoinReads(ts, ps, rest); }
      GroupReads(Join(ts, OR), OrAll(ps));
    }
  }

  lemma GroupMeans(host: Host, e: P.Engine, model: Model, fs: seq<Filter>, d: Driver, row: P.Row)
    requires e.Lawful() && fs != []
    ensures P.Holds(e, row, GroupPred(host, model, fs, d)) == P.True <==> SomePasses(host, e, d, model, fs, row)
  {
    hide CondPred, P.Holds, Truth;
    if |fs| == 1 {
      CondMeans(host, e, model, fs[0], d, row);
      assert Passes(host, e, d, model, fs[0], row) <==> SomePasses(host, e, d, model, fs, row);
    } else {
      var ps := CondPreds(host, model, fs, d);
      CondsMean(host, e, model, fs, d, row);
      OrAllMeans(e, row, ps);
      forall i | 0 <= i < |fs| ensures Passes(host, e, d, model, fs[i], row) <==> P.Holds(e, row, ps[i]) == P.True {}
    }
  }

  function GroupPreds(host: Host, model: Model, fs: FilterList, order: seq<int>, d: Driver): (r: seq<P.Pred>)
    requires forall g :: g in order ==> Members(fs, g) != []
    ensures |r| == |order|
  {
    if order == [] then []
    else GroupPreds(host, model, fs, order[..|order| - 1], d) + [GroupPred(host, model, Members(fs, order[|order| - 1]), d)]
  }

  lemma {:induction false} GroupsTight(host: Host, model: Model, fs: FilterList, order: seq<int>, d: Driver)
    requires GroupsNonEmpty(fs, order)
    ensures AllTight(GroupConds(host, model, fs, order, d), GroupPreds(host, model, fs, order, d))
    decreases |order|
  {
    hide GroupPred, InlineGroup, ReadsTight, Members;
    if order != [] {
      var init, last := order[..|order| - 1], order[|order| - 1];
      assert last in order;
      GroupsTight(host, model, fs, init, d);
      GroupTight(host, model, Members(fs, last), d);
    }
  }

  lemma {:induction false} GroupsMean(host: Host, e: P.Engine, model: Model, fs: FilterList, order: seq<int>, d: Driver, row: P.Row)
    requires e.Lawful() && GroupsNonEmpty(fs, order)
    ensures forall i :: 0 <= i < |order| ==>
              (P.Holds(e, row, GroupPreds(host, model, fs, order, d)[i]) == P.True <==> SomePasses(host, e, d, model, Members(fs, order[i]), row))
    decreases |order|
  {
    hide GroupPred, P.Holds, SomePasses, Members;
    if order != [] {
      var init, last := order[..|order| - 1], order[|order| - 1];
      assert last in order;
      GroupsMean(host, e, model, fs, init, d, row);
      GroupMeans(host, e, model, Members(fs, last), d, row);
    }
  }

  /** The parts of the clause all pass: every ungrouped filter, and some member of
      every group. */
  ghost predicate PartsPass(host: Host, e: P.Engine, d: Driver, model: Model, fs: FilterList, row: P.Row) {
    && (forall i :: 0 <= i < |Ungrouped(fs)| ==> Passes(host, e, d, model, Ungrouped(fs)[i], row))
    && (forall i :: 0 <= i < |GroupOrder(fs)| ==> SomePasses(host, e, d, model, Members(fs, GroupOrder(fs)[i]), row))
  }

  lemma SelectedGroupPasses(host: Host, e: P.Engine, d: Driver, model: Model, fs: FilterList, g: int, row: P.Row)
    requires Selects(host, e, d, model, fs, row) && g in GroupOrder(fs)
    ensures SomePasses(host, e, d, model, Members(fs, g), row)
  {
    hide Passes, Ungrouped, Members, GroupOrder;
    var ms := Members(fs, g);
    OrderIs(fs, g);
    MembersAre(fs, g, ms[0]);
    var first := ms[0];
    assert Some(first) in fs && first.group == g;
    assert GroupPasses(host, e, d, model, fs, g, row);
    var m :| Some(m) in fs && m.group == g && Passes(host, e, d, model, m, row);
    MembersAre(fs, g, m);
    var j :| 0 <= j < |ms| && ms[j] == m;
  }

  lemma SelectedUngroupedPasses(host: Host, e: P.Engine, d: Driver, model: Model, fs: FilterList, f: Filter, row: P.Row)
    requires Selects(host, e, d, model, fs, row) && f in Ungrouped(fs)
    ensures Passes(host, e, d, model, f, row)
  {
    hide Passes, Ungrouped;
    UngroupedAre(fs, f);
  }

  lemma SelectedPartsPass(host: Host, e: P.Engine, d: Driver, model: Model, fs: FilterList, row: P.Row)
    requires Selects(host, e, d, model, fs, row)
    ensures PartsPass(host, e, d, model, fs, row)
  {
    hide Passes, Ungrouped, Members, GroupOrder, SomePasses, Selects;
    var us, order := Ungrouped(fs), GroupOrder(fs);
    forall i | 0 <= i < |us| ensures Passes(host, e, d, model, us[i], row) { SelectedUngroupedPasses(host, e, d, model, fs, us[i], row); }
    forall i | 0 <= i < |order| ensures SomePasses(host, e, d, model, Members(fs, order[i]), row) {
      SelectedGroupPasses(host, e, d, model, fs, order[i], row);
    }
  }

  lemma PassingPartsSelect(host: Host, e: P.Engine, d: Driver, model: Model, fs: FilterList, row: P.Row)
    requires PartsPass(host, e, d, model, fs, row)
    ensures Selects(host, e, d, model, fs, row)
  {
    hide Passes, Ungrouped, Members, GroupOrder;
    var us, order := Ungrouped(fs), GroupOrder(fs);
    forall f | Some(f) in fs && f.group > 0
      ensures GroupPasses(host, e, d, model, fs, f.group, row)
    {
      MembersAre(fs, f.group, f);
      OrderIs(fs, f.group);
      var i :| 0 <= i < |order| && order[i] == f.group;
      var ms := Members(fs, f.group);
      assert SomePasses(host, e, d, model, Members(fs, order[i]), row);
      var j :| 0 <= j < |ms| && Passes(host, e, d, model, ms[j], row);
      MembersAre(fs, f.group, ms[j]);
    }
    forall f | Some(f) in fs && f.group <= 0 ensures Passes(host, e, d, model, f, row) {
      UngroupedAre(fs, f);
      var i :| 0 <= i < |us| && us[i] == f;
    }
  }

  // ---- the main theorems -----------------------------------------------------------------

  /** A WHERE body is true of a row: an empty body always, any other when it reads
      back as a predicate and that predicate is true. */
  predicate BodyHolds(e: P.Engine, row: P.Row, body: Text) {
    body == [] || (P.Parse(body).Some? && P.Holds(e, row, P.Parse(body).value) == P.True)
  }

  /** Read back and evaluated, the clause is true on exactly the rows the filters
      select. */
  lemma ClauseMeansFilters(host: Host, e: P.Engine, model: Model, fs: FilterList, d: Driver, row: P.Row)
    requires e.Lawful()
    ensures BodyHolds(e, row, InlineFilters(host, model, fs, d)) <==> Selects(host, e, d, model, fs, row)
  {
    hide P.ParseOr, P.ParseAnd, Selects, PartsPass, Join, InlineParts, PartPreds, AllTight, P.Holds, AndAll;
    var ts, ps := InlineParts(host, model, fs, d), PartPreds(host, model, fs, d);
    PartsTight(host, model, fs, d);
    PartsMean(host, e, model, fs, d, row);
    SameNumber(ts, ps);
    if ts == [] {
      JoinNothing();
    } else {
      AndJoinReads(ts, ps, []);
      assert Join(ts, AND) + [] == Join(ts, AND);
      JoinNotEmpty(ts, ps);
      AndAllMeans(e, row, ps);
    }
    if Selects(host, e, d, model, fs, row) { SelectedPartsPass(host, e, d, model, fs, row); }
    if PartsPass(host, e, d, model, fs, row) { PassingPartsSelect(host, e, d, model, fs, row); }
  }

  lemma SameNumber(ts: seq<Text>, ps: seq<P.Pred>)
    requires AllTight(ts, ps)
    ensures |ts| == |ps|
  {
  }

  /** The predicates the AND-ed parts read back as. */
  function PartPreds(host: Host, model: Model, fs: FilterList, d: Driver): seq<P.Pred> {
    OrderNonEmpty(fs);
    CondPreds(host, model, Ungrouped(fs), d) + GroupPreds(host, model, fs, GroupOrder(fs), d)
  }

  lemma PartsTight(host: Host, model: Model, fs: FilterList, d: Driver)
    ensures AllTight(InlineParts(host, model, fs, d), PartPreds(host, model, fs, d))
  {
    hide ReadsTight, Members, Ungrouped, GroupOrder, Conds, CondPreds, GroupConds, GroupPreds;
    OrderNonEmpty(fs);
    CondsTight(host, model, Ungrouped(fs), d);
    GroupsTight(host, model, fs, GroupOrder(fs), d);
  }

  lemma PartsMean(host: Host, e: P.Engine, model: Model, fs: FilterList, d: Driver, row: P.Row)
    requires e.Lawful()
    ensures (forall i :: 0 <= i < |PartPreds(host, model, fs, d)| ==> P.Holds(e, row, PartPreds(host, model, fs, d)[i]) == P.True)
            <==> PartsPass(host, e, d, model, fs, row)
  {
    hide P.Holds, Truth, SomePasses, Members, Ungrouped, GroupOrder, CondPred, GroupPred, CondPreds, GroupPreds;
    OrderNonEmpty(fs);
    var us, order, ps := Ungrouped(fs), GroupOrder(fs), PartPreds(host, model, fs, d);
    var qs, bs := CondPreds(host, model, us, d), GroupPreds(host, model, fs, order, d);
    CondsMean(host, e, model, us, d, row);
    GroupsMean(host, e, model, fs, order, d, row);
    var n := |us|;
    assert forall i :: 0 <= i < n ==> ps[i] == qs[i];
    assert forall i :: 0 <= i < |order| ==> ps[n + i] == bs[i];
    forall i | 0 <= i < n ensures P.Holds(e, row, ps[i]) == P.True <==> Passes(host, e, d, model, us[i], row) {}
    forall i | 0 <= i < |order| ensures P.Holds(e, row, ps[n + i]) == P.True <==> SomePasses(host, e, d, model, Members(fs, order[i]), row) {}
    assert forall i :: n <= i < |ps| ==> ps[i] == ps[n + (i - n)];
  }

  lemma JoinNothing()
    ensures Join([], AND) == []
  {
  }

  lemma JoinNotEmpty(ts: seq<Text>, ps: seq<P.Pred>)
    requires AllTight(ts, ps) && ts != []
    ensures Join(ts, AND) != []
  {
    AndJoinReads(ts, ps, []);
    assert Join(ts, AND) + [] == Join(ts, AND);
  }

  /** From the builder's own output: whatever text BuildFilterSQL produced with a
      fresh binder, with its arguments put in, selects what the filters select. */
  lemma BuiltClauseMeansFilters(host: Host, e: P.Engine, model: Model, fs: FilterList, d: Driver, row: P.Row, args: seq<GoValue>, t: Text)
    requires e.Lawful() && (d.SQLite? ==> AllFit(host, fs, d))
    requires TextDone(d, [], args, AllFit(host, fs, d), TotalSurplus(host, fs), t, InlineFilters(host, model, fs, d))
    ensures BodyHolds(e, row, Resolve(t, args, 0)) <==> Selects(host, e, d, model, fs, row)
  {
    ClauseMeansFilters(host, e, model, fs, d, row);
  }
}
