/** Registered aggregate expressions: the check that bounds them, and their
    rendering to SQL, which reads back as one tree of the same value. */
module AggregateExpr {
  import opened Wrappers
  import opened SqlText
  import opened Filters

  const MAX_DEPTH := 8
  const MAX_NODES := 32

  datatype ArithOp = Plus | Minus | Times | Divide

  /** A nil child is an operation left incomplete. */
  datatype Expr = Col(name: string) | Const(v: real) | Bin(op: ArithOp, l: Option<Expr>, r: Option<Expr>)

  datatype ExprError =
    | NeedsName | NoExpression | NameCollides | UnknownField(name: string) | NotNumeric(name: string) | Incomplete
    | TooDeep(depth: nat) | TooManyNodes(nodes: nat)

  // ---- the tree check --------------------------------------------------------------

  /** The recursive check: the depth and node count found, cut short below the
      depth limit. */
  function ValidateExprTree(model: Model, e: Expr, depth: nat): Result<(nat, nat), ExprError> {
    match e
    case Col(name) =>
      var f := ResolveFilterField(model, name);
      if f.None? then Err(UnknownField(name))
      else if !f.value.kind.NumberKind? then Err(NotNumeric(name))
      else Ok((depth, 1))
    case Const(_) => Ok((depth, 1))
    case Bin(op, l, r) =>
      if l.None? || r.None? then Err(Incomplete)
      else if depth > MAX_DEPTH then Ok((depth, 1))
      else match ValidateExprTree(model, l.value, depth + 1)
        case Err(x) => Err(x)
        case Ok(left) =>
          match ValidateExprTree(model, r.value, depth + 1)
          case Err(x) => Err(x)
          case Ok(right) => Ok((if left.0 >= right.0 then left.0 else right.0, left.1 + right.1 + 1))
  }

  function CompileAggregateExpr(model: Model, name: string, e: Option<Expr>): Result<Expr, ExprError> {
    if name == "" then Err(NeedsName)
    else if e.None? then Err(NoExpression)
    else if ResolveFilterField(model, name).Some? then Err(NameCollides)
    else match ValidateExprTree(model, e.value, 1)
      case Err(x) => Err(x)
      case Ok(found) =>
        if found.0 > MAX_DEPTH then Err(TooDeep(found.0))
        else if found.1 > MAX_NODES then Err(TooManyNodes(found.1))
        else Ok(e.value)
  }

  /** No operation is left without an operand. */
  predicate Complete(e: Expr) {
    e.Bin? ==> e.l.Some? && e.r.Some? && Complete(e.l.value) && Complete(e.r.value)
  }

  function Height(e: Expr): nat
    requires Complete(e)
  {
    if e.Bin? then 1 + (if Height(e.l.value) >= Height(e.r.value) then Height(e.l.value) else Height(e.r.value)) else 1
  }

  function Size(e: Expr): nat
    requires Complete(e)
  {
    if e.Bin? then 1 + Size(e.l.value) + Size(e.r.value) else 1
  }

  predicate NumericColumn(model: Model, name: string) {
    var f := ResolveFilterField(model, name); f.Some? && f.value.kind.NumberKind?
  }

  predicate ColumnsNumeric(model: Model, e: Expr) {
    match e
    case Col(name) => NumericColumn(model, name)
    case Const(_) => true
    case Bin(_, l, r) => (l.Some? ==> ColumnsNumeric(model, l.value)) && (r.Some? ==> ColumnsNumeric(model, r.value))
  }

  /** Cutting the walk short changes no verdict: a walk that stays within the limit
      saw the whole tree, and of a tree too deep it reports a depth over the limit
      or an error. */
  lemma {:induction false} WalkMeasures(model: Model, e: Expr, depth: nat)
    requires 1 <= depth <= MAX_DEPTH + 1
    ensures var r := ValidateExprTree(model, e, depth);
            (r.Ok? && r.value.0 <= MAX_DEPTH)
            <==> (Complete(e) && ColumnsNumeric(model, e) && depth + Height(e) - 1 <= MAX_DEPTH)
    ensures var r := ValidateExprTree(model, e, depth);
            r.Ok? && r.value.0 <= MAX_DEPTH ==> r.value == (depth + Height(e) - 1, Size(e))
    ensures var r := ValidateExprTree(model, e, depth); r.Ok? ==> depth <= r.value.0
    decreases e
  {
    hide ResolveFilterField;
    if e.Bin? && e.l.Some? && e.r.Some? && depth <= MAX_DEPTH {
      WalkMeasures(model, e.l.value, depth + 1);
      WalkMeasures(model, e.r.value, depth + 1);
    }
  }

  /** An expression is accepted exactly when it has a free name and is a complete
      tree of height at most 8 and at most 32 nodes whose columns are all numeric. */
  lemma CompileAcceptsExactly(model: Model, name: string, e: Option<Expr>)
    ensures CompileAggregateExpr(model, name, e).Ok? <==>
            && name != "" && ResolveFilterField(model, name).None?
            && e.Some? && Complete(e.value) && ColumnsNumeric(model, e.value)
            && Height(e.value) <= 8 && Size(e.value) <= 32
    ensures CompileAggregateExpr(model, name, e).Ok? ==> CompileAggregateExpr(model, name, e).value == e.value
  {
    if e.Some? { WalkMeasures(model, e.value, 1); }
  }

  /** The nodes the check looks at. */
  function Visits(model: Model, e: Expr, depth: nat): nat {
    if !e.Bin? || e.l.None? || e.r.None? || depth > MAX_DEPTH then 1
    else
      1 + Visits(model, e.l.value, depth + 1)
      + if ValidateExprTree(model, e.l.value, depth + 1).Err? then 0 else Visits(model, e.r.value, depth + 1)
  }

  function Pow2(n: nat): nat {
    if n == 0 then 1 else 2 * Pow2(n - 1)
  }

  /** However large the tree, the check looks at no more than 511 nodes. */
  lemma {:induction false} VisitsBounded(model: Model, e: Expr, depth: nat)
    requires 1 <= depth <= MAX_DEPTH + 1
    ensures Visits(model, e, depth) <= Pow2(MAX_DEPTH + 2 - depth) - 1
    ensures depth == 1 ==> Visits(model, e, depth) <= 511
    decreases e
  {
    assert Pow2(1) == 2;
    if e.Bin? && e.l.Some? && e.r.Some? && depth <= MAX_DEPTH {
      VisitsBounded(model, e.l.value, depth + 1);
      VisitsBounded(model, e.r.value, depth + 1);
    } else {
      PowGrows(MAX_DEPTH + 2 - depth);
    }
    assert Pow2(9) == 512 by { assert Pow2(5) == 32; }
  }

  lemma {:induction false} PowGrows(n: nat)
    requires n >= 1
    ensures Pow2(n) >= 2
  {
    if n > 1 { PowGrows(n - 1); }
  }

  // ---- rendering --------------------------------------------------------------------

  function Sign(op: ArithOp): string {
    match op case Plus => "+" case Minus => "-" case Times => "*" case Divide => "/"
  }

  /** Every column of the tree is a field of the model. */
  predicate Resolves(model: Model, e: Expr) {
    match e
    case Col(name) => ResolveFilterField(model, name).Some?
    case Const(_) => true
    case Bin(_, l, r) => l.Some? && r.Some? && Resolves(model, l.value) && Resolves(model, r.value)
  }

  /** The text with its literals in place. */
  function InlineExpr(model: Model, e: Expr): Text
    requires Resolves(model, e)
  {
    match e
    case Col(name) => Column(model.table, ResolveFilterField(model, name).value.dbName)
    case Const(v) => [Bound(Float(v))]
    case Bin(op, l, r) =>
      var a, b := InlineExpr(model, l.value), InlineExpr(model, r.value);
      if op.Divide? then [Raw("(")] + a + [Raw("/"), Raw("NULLIF"), Raw("(")] + b + [Raw(","), Raw("0"), Raw(")"), Raw(")")]
      else [Raw("(")] + a + [Raw(Sign(op))] + b + [Raw(")")]
  }

  /** Renders a tree, binding each literal in the order the text holds them. */
  method RenderAggExpr(model: Model, e: Expr, p: Binder) returns (t: Option<Text>)
    modifies p
    ensures t.Some? <==> Resolves(model, e)
    ensures t.Some? ==> Renders(p.driver, old(p.args), p.args, t.value, InlineExpr(model, e))
    decreases e
  {
    hide Renders, ResolveFilterField, Column;
    ghost var before := p.args;
    match e {
      case Col(name) =>
        var f := ResolveFilterField(model, name);
        if f.None? { return None; }
        var col := Column(model.table, f.value.dbName);
        ColumnIsPlain(model.table, f.value.dbName);
        PlainRenders(p.driver, before, col);
        return Some(col);
      case Const(v) =>
        var ph := p.Add(Float(v));
        return Some(ph);
      case Bin(op, l, r) =>
        if l.None? || r.None? { return None; }
        var a := RenderAggExpr(model, l.value, p);
        if a.None? { return None; }
        ghost var mid := p.args;
        var b := RenderAggExpr(model, r.value, p);
        if b.None? { return None; }
        ghost var ia, ib := InlineExpr(model, l.value), InlineExpr(model, r.value);
        var open: Text := [Raw("(")];
        var sign: Text := if op.Divide? then [Raw("/"), Raw("NULLIF"), Raw("(")] else [Raw(Sign(op))];
        var close: Text := if op.Divide? then [Raw(","), Raw("0"), Raw(")"), Raw(")")] else [Raw(")")];
        Prefixed(p.driver, before, mid, open, a.value, ia);
        Suffixed(p.driver, before, mid, open + a.value, open + ia, sign);
        RendersConcat(p.driver, before, mid, p.args, open + a.value + sign, open + ia + sign, b.value, ib);
        Suffixed(p.driver, before, p.args, open + a.value + sign + b.value, open + ia + sign + ib, close);
        return Some(open + a.value + sign + b.value + close);
    }
  }

  lemma ColumnIsPlain(table: string, col: string)
    ensures NoHoles(Column(table, col))
  {
  }

  /** A compiled expression always renders. */
  lemma {:induction false} CompiledResolves(model: Model, e: Expr)
    requires Complete(e) && ColumnsNumeric(model, e)
    ensures Resolves(model, e)
  {
    if e.Bin? {
      CompiledResolves(model, e.l.value);
      CompiledResolves(model, e.r.value);
    }
  }

  // ---- reading the text back ------------------------------------------------------------

  /** Arithmetic as a database reads it. */
  datatype Arith =
    | Ref(table: string, col: string)
    | Value(v: GoValue)
    | Op(sign: string, l: Arith, r: Arith)
    | NullIf(a: Arith)

  function ParseArith(ts: Text): (r: Option<(Arith, Text)>)
    ensures r.Some? ==> |r.value.1| < |ts|
    decreases |ts|
  {
    if ts == [] then None
    else match ts[0]
      case Ident(table) => if |ts| >= 3 && ts[1] == Raw(".") && ts[2].Ident? then Some((Ref(table, ts[2].name), ts[3..])) else None
      case Bound(v) => Some((Value(v), ts[1..]))
      case Raw(s) =>
        if s == "(" then
          match ParseArith(ts[1..])
          case None => None
          case Some(l) =>
            if l.1 != [] && l.1[0].Raw? && l.1[0].s in {"+", "-", "*", "/"} then
              match ParseArith(l.1[1..])
              case None => None
              case Some(r) => if r.1 != [] && r.1[0] == Raw(")") then Some((Op(l.1[0].s, l.0, r.0), r.1[1..])) else None
            else None
        else if s == "NULLIF" && |ts| >= 2 && ts[1] == Raw("(") then
          match ParseArith(ts[2..])
          case None => None
          case Some(a) => if |a.1| >= 3 && a.1[0] == Raw(",") && a.1[1] == Raw("0") && a.1[2] == Raw(")") then Some((NullIf(a.0), a.1[3..])) else None
        else None
      case _ => None
  }

  /** The tree the text reads back as. */
  function Read(model: Model, e: Expr): Arith
    requires Resolves(model, e)
  {
    match e
    case Col(name) => Ref(model.table, ResolveFilterField(model, name).value.dbName)
    case Const(v) => Value(Float(v))
    case Bin(op, l, r) => Op(Sign(op), Read(model, l.value), if op.Divide? then NullIf(Read(model, r.value)) else Read(model, r.value))
  }

  /** The rendered text reads back as that tree whatever follows it: parentheses
      leave nothing to precedence. */
  lemma {:induction false} ExprReadsBack(model: Model, e: Expr, rest: Text)
    requires Resolves(model, e)
    ensures ParseArith(InlineExpr(model, e) + rest) == Some((Read(model, e), rest))
    decreases e
  {
    hide ParseArith, ResolveFilterField, Column;
    match e {
      case Col(name) => ColumnParses(model.table, ResolveFilterField(model, name).value.dbName, rest);
      case Const(v) => ValueParses(Float(v), rest);
      case Bin(op, l, r) =>
        var a, b := InlineExpr(model, l.value), InlineExpr(model, r.value);
        var x, y := Read(model, l.value), Read(model, r.value);
        var close: Text := [Raw(")")] + rest;
        if op.Divide? {
          var after: Text := [Raw(","), Raw("0"), Raw(")")] + close;
          ExprReadsBack(model, r.value, after);
          ExprReadsBack(model, l.value, [Raw("/")] + ([Raw("NULLIF"), Raw("(")] + (b + after)));
          QuotientReads(a, x, b, y, rest);
        } else {
          ExprReadsBack(model, r.value, close);
          ExprReadsBack(model, l.value, [Raw(Sign(op))] + (b + close));
          OpReads(Sign(op), a, x, b, y, rest);
        }
    }
  }

  lemma QuotientReads(a: Text, x: Arith, b: Text, y: Arith, rest: Text)
    requires var after: Text := [Raw(","), Raw("0"), Raw(")")] + ([Raw(")")] + rest);
             var right: Text := [Raw("NULLIF"), Raw("(")] + (b + after);
             ParseArith(b + after) == Some((y, after)) && ParseArith(a + ([Raw("/")] + right)) == Some((x, [Raw("/")] + right))
    ensures ParseArith([Raw("(")] + a + [Raw("/"), Raw("NULLIF"), Raw("(")] + b + [Raw(","), Raw("0"), Raw(")"), Raw(")")] + rest)
            == Some((Op("/", x, NullIf(y)), rest))
  {
    hide ParseArith;
    var close: Text := [Raw(")")] + rest;
    var right: Text := [Raw("NULLIF"), Raw("(")] + (b + ([Raw(","), Raw("0"), Raw(")")] + close));
    NullIfParses(b, y, close);
    OpParses("/", a, x, right, NullIf(y), rest);
    assert [Raw("(")] + a + [Raw("/"), Raw("NULLIF"), Raw("(")] + b + [Raw(","), Raw("0"), Raw(")"), Raw(")")] + rest
           == [Raw("(")] + (a + ([Raw("/")] + right));
  }

  lemma OpReads(sign: string, a: Text, x: Arith, b: Text, y: Arith, rest: Text)
    requires sign in {"+", "-", "*", "/"}
    requires var close: Text := [Raw(")")] + rest;
             ParseArith(b + close) == Some((y, close)) && ParseArith(a + ([Raw(sign)] + (b + close))) == Some((x, [Raw(sign)] + (b + close)))
    ensures ParseArith([Raw("(")] + a + [Raw(sign)] + b + [Raw(")")] + rest) == Some((Op(sign, x, y), rest))
  {
    hide ParseArith;
    var close: Text := [Raw(")")] + rest;
    OpParses(sign, a, x, b + close, y, rest);
    assert [Raw("(")] + a + [Raw(sign)] + b + [Raw(")")] + rest == [Raw("(")] + (a + ([Raw(sign)] + (b + close)));
  }

  lemma ColumnParses(table: string, col: string, rest: Text)
    ensures ParseArith(Column(table, col) + rest) == Some((Ref(table, col), rest))
  {
    assert (Column(table, col) + rest)[3..] == rest;
  }

  lemma ValueParses(v: GoValue, rest: Text)
    ensures ParseArith([Bound(v)] + rest) == Some((Value(v), rest))
  {
    assert ([Bound(v)] + rest)[1..] == rest;
  }

  lemma NullIfParses(b: Text, t: Arith, rest: Text)
    requires var after: Text := [Raw(","), Raw("0"), Raw(")")] + rest; ParseArith(b + after) == Some((t, after))
    ensures ParseArith([Raw("NULLIF"), Raw("(")] + (b + ([Raw(","), Raw("0"), Raw(")")] + rest))) == Some((NullIf(t), rest))
  {
    var after: Text := [Raw(","), Raw("0"), Raw(")")] + rest;
    assert ([Raw("NULLIF"), Raw("(")] + (b + after))[2..] == b + after && after[3..] == rest;
  }

  lemma OpParses(sign: string, a: Text, l: Arith, right: Text, r: Arith, rest: Text)
    requires sign in {"+", "-", "*", "/"}
    requires ParseArith(a + ([Raw(sign)] + right)) == Some((l, [Raw(sign)] + right))
    requires ParseArith(right) == Some((r, [Raw(")")] + rest))
    ensures ParseArith([Raw("(")] + (a + ([Raw(sign)] + right))) == Some((Op(sign, l, r), rest))
  {
    assert ([Raw("(")] + (a + ([Raw(sign)] + right)))[1..] == a + ([Raw(sign)] + right);
    assert ([Raw(sign)] + right)[1..] == right && ([Raw(")")] + rest)[1..] == rest;
  }

  /** Two trees with the same text are the same tree up to the spelling of columns. */
  lemma TextDeterminesTree(model: Model, e: Expr, f: Expr)
    requires Resolves(model, e) && Resolves(model, f) && InlineExpr(model, e) == InlineExpr(model, f)
    ensures Read(model, e) == Read(model, f)
  {
    ExprReadsBack(model, e, []);
    ExprReadsBack(model, f, []);
  }

  // ---- value ------------------------------------------------------------------------------

  /** What a database computes: arithmetic on values that are not NULL, and what it
      does when asked to divide by zero. A fault aborts the statement. */
  datatype Machine = Machine(arith: (string, GoValue, GoValue) -> GoValue, isZero: GoValue -> bool, zeroFaults: bool)

  datatype Outcome = Fault | Val(v: GoValue)

  type Row = (string, string) -> GoValue

  /** SQL's reading of an operator: NULL if an operand is. */
  function Apply(m: Machine, sign: string, x: Outcome, y: Outcome): Outcome {
    if x.Fault? || y.Fault? then Fault
    else if x.v.Nil? || y.v.Nil? then Val(Nil)
    else if sign == "/" && m.isZero(y.v) then (if m.zeroFaults then Fault else Val(Nil))
    else Val(m.arith(sign, x.v, y.v))
  }

  function EvalArith(m: Machine, row: Row, a: Arith): Outcome {
    match a
    case Ref(table, col) => Val(row(table, col))
    case Value(v) => Val(v)
    case Op(sign, l, r) => Apply(m, sign, EvalArith(m, row, l), EvalArith(m, row, r))
    case NullIf(a) => var x := EvalArith(m, row, a); if x.Val? && !x.v.Nil? && m.isZero(x.v) then Val(Nil) else x
  }

  /** What the tree means: arithmetic that skips NULL, and a division by zero is NULL. */
  function Meaning(m: Machine, model: Model, row: Row, e: Expr): GoValue
    requires Resolves(model, e)
  {
    match e
    case Col(name) => row(model.table, ResolveFilterField(model, name).value.dbName)
    case Const(v) => Float(v)
    case Bin(op, l, r) =>
      var x, y := Meaning(m, model, row, l.value), Meaning(m, model, row, r.value);
      if x.Nil? || y.Nil? then Nil
      else match op
        case Plus => m.arith("+", x, y)
        case Minus => m.arith("-", x, y)
        case Times => m.arith("*", x, y)
        case Divide => if m.isZero(y) then Nil else m.arith("/", x, y)
  }

  /** The text computes the tree's value and never faults, whether or not the
      database raises an error on a division by zero. */
  lemma {:induction false} TextComputesMeaning(m: Machine, model: Model, row: Row, e: Expr)
    requires Resolves(model, e)
    ensures EvalArith(m, row, Read(model, e)) == Val(Meaning(m, model, row, e))
    decreases e
  {
    if e.Bin? {
      TextComputesMeaning(m, model, row, e.l.value);
      TextComputesMeaning(m, model, row, e.r.value);
    }
  }

  // ---- over the reals ---------------------------------------------------------------------

  /** The machine computes on reals as the reals do. */
  ghost predicate ComputesReals(m: Machine) {
    && (forall x, y :: m.arith("+", Float(x), Float(y)) == Float(x + y))
    && (forall x, y :: m.arith("-", Float(x), Float(y)) == Float(x - y))
    && (forall x, y :: m.arith("*", Float(x), Float(y)) == Float(x * y))
    && (forall x, y :: y != 0.0 ==> m.arith("/", Float(x), Float(y)) == Float(x / y))
    && (forall y :: m.isZero(Float(y)) <==> y == 0.0)
  }

  /** What the text of e comes to: it is read and evaluated. */
  function TextValue(m: Machine, model: Model, row: Row, e: Expr): Outcome
    requires Resolves(model, e)
  {
    match ParseArith(InlineExpr(model, e)) case None => Fault case Some(r) => if r.1 == [] then EvalArith(m, row, r.0) else Fault
  }

  lemma TextIsRead(m: Machine, model: Model, row: Row, e: Expr)
    requires Resolves(model, e)
    ensures TextValue(m, model, row, e) == EvalArith(m, row, Read(model, e)) == Val(Meaning(m, model, row, e))
  {
    hide ParseArith, InlineExpr, Read, Meaning, EvalArith;
    ExprReadsBack(model, e, []);
    assert InlineExpr(model, e) + [] == InlineExpr(model, e);
    TextComputesMeaning(m, model, row, e);
  }

  /** The text of each operation computes that operation on the values of the texts
      of its operands, a division by zero being NULL. */
  lemma OperationsCompute(m: Machine, model: Model, row: Row, op: ArithOp, l: Expr, r: Expr, x: real, y: real)
    requires ComputesReals(m) && Resolves(model, l) && Resolves(model, r)
    requires TextValue(m, model, row, l) == Val(Float(x)) && TextValue(m, model, row, r) == Val(Float(y))
    ensures var v := TextValue(m, model, row, Bin(op, Some(l), Some(r)));
            && (op == Plus ==> v == Val(Float(x + y)))
            && (op == Minus ==> v == Val(Float(x - y)))
            && (op == Times ==> v == Val(Float(x * y)))
            && (op == Divide ==> v == if y == 0.0 then Val(Nil) else Val(Float(x / y)))
  {
    hide TextValue, Read, EvalArith;
    TextIsRead(m, model, row, l);
    TextIsRead(m, model, row, r);
    TextIsRead(m, model, row, Bin(op, Some(l), Some(r)));
  }

  /** A column's text is the row's value, a constant's its own; NULL spreads. */
  lemma LeavesCompute(m: Machine, model: Model, row: Row, name: string, v: real)
    requires ResolveFilterField(model, name).Some?
    ensures TextValue(m, model, row, Col(name)) == Val(row(model.table, ResolveFilterField(model, name).value.dbName))
    ensures TextValue(m, model, row, Const(v)) == Val(Float(v))
  {
    hide TextValue, Read, EvalArith, ResolveFilterField;
    TextIsRead(m, model, row, Col(name));
    TextIsRead(m, model, row, Const(v));
  }

  lemma NullSpreads(m: Machine, model: Model, row: Row, op: ArithOp, l: Expr, r: Expr)
    requires Resolves(model, l) && Resolves(model, r)
    requires TextValue(m, model, row, l) == Val(Nil) || TextValue(m, model, row, r) == Val(Nil)
    ensures TextValue(m, model, row, Bin(op, Some(l), Some(r))) == Val(Nil)
  {
    hide TextValue, Read, EvalArith;
    TextIsRead(m, model, row, l);
    TextIsRead(m, model, row, r);
    TextIsRead(m, model, row, Bin(op, Some(l), Some(r)));
  }

  // price - cost, the price being 10 and the cost 4

  const GOODS := Model("Item", "items", [
    Filters.Field("price", "price", NumberKind, false, false),
    Filters.Field("cost", "cost", NumberKind, false, false)])
  const MARGIN := Bin(Minus, Some(Col("price")), Some(Col("cost")))

  /** The margin's text, and what it comes to. */
  method RenderMargin(m: Machine, d: Driver) returns (t: Text)
    requires ComputesReals(m)
    ensures t == [Raw("("), Ident("items"), Raw("."), Ident("price"), Raw("-"), Ident("items"), Raw("."), Ident("cost"), Raw(")")]
    ensures var row: Row := (table, col) => if col == "price" then Float(10.0) else Float(4.0);
            Resolves(GOODS, MARGIN) && t == InlineExpr(GOODS, MARGIN) && TextValue(m, GOODS, row, MARGIN) == Val(Float(6.0))
  {
    hide TextValue, Means, Covers, Within, ComputesReals;
    MarginText();
    var p := new Binder(d);
    var r := RenderAggExpr(GOODS, MARGIN, p);
    t := r.value;
    PlainMeans(d, p.args, t, InlineExpr(GOODS, MARGIN));
    var row: Row := (table, col) => if col == "price" then Float(10.0) else Float(4.0);
    LeavesCompute(m, GOODS, row, "price", 0.0);
    LeavesCompute(m, GOODS, row, "cost", 0.0);
    OperationsCompute(m, GOODS, row, Minus, Col("price"), Col("cost"), 10.0, 4.0);
  }

  lemma MarginText()
    ensures ResolveFilterField(GOODS, "price") == Some(GOODS.fields[0]) && ResolveFilterField(GOODS, "cost") == Some(GOODS.fields[1])
    ensures Resolves(GOODS, MARGIN) && InlineExpr(GOODS, MARGIN)
            == [Raw("("), Ident("items"), Raw("."), Ident("price"), Raw("-"), Ident("items"), Raw("."), Ident("cost"), Raw(")")]
  {
    assert GOODS.fields[1..][0] == GOODS.fields[1];
    assert FieldByDBName(GOODS.fields[1..], "cost") == Some(GOODS.fields[1]);
  }

  /** Without NULLIF the drivers part exactly on a zero divisor under a dividend
      that is not NULL. */
  lemma BareDivisionDiffersIff(pg: Machine, lite: Machine, row: Row, l: Arith, r: Arith)
    requires pg.zeroFaults && !lite.zeroFaults && pg.arith == lite.arith && pg.isZero == lite.isZero
    requires EvalArith(pg, row, l).Val? && EvalArith(pg, row, l) == EvalArith(lite, row, l)
    requires EvalArith(pg, row, r).Val? && EvalArith(pg, row, r) == EvalArith(lite, row, r)
    ensures EvalArith(pg, row, Op("/", l, r)) != EvalArith(lite, row, Op("/", l, r))
            <==> !EvalArith(pg, row, l).v.Nil? && !EvalArith(pg, row, r).v.Nil? && pg.isZero(EvalArith(pg, row, r).v)
  {
  }
}
