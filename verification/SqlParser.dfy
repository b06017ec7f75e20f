/** A reader of WHERE bodies that knows nothing of how they were built: operator
    precedence, then evaluation under three-valued logic. It reads the text a
    statement has once its arguments are in place. */
module SqlParser {
  import opened Wrappers
  import opened SqlText
  import LikePattern

  // ---- syntax -------------------------------------------------------------------

  datatype Operand =
    | ColumnRef(rel: string, col: string)
    | Lit(v: GoValue)
    | Number(s: string)
    | JsonField(doc: Operand, key: GoValue)
    | JsonExtract(doc: Operand, path: GoValue)
    | JsonQuote(o: Operand)
    | Lower(o: Operand)

  datatype Pred =
    | Compare(sign: string, l: Operand, r: Operand)
    | NullTest(o: Operand, negated: bool)
    | LikeTest(l: Operand, r: Operand, ilike: bool, escaped: bool)
    | InTest(o: Operand, items: seq<Operand>, negated: bool)
    | JsonContains(doc: Operand, value: GoValue)
    | JsonEach(doc: Operand, lit: Operand)
    | And(p: Pred, q: Pred)
    | Or(p: Pred, q: Pred)
    | Not(p: Pred)

  type Parsed<T> = Option<(T, Text)>

  predicate At(ts: Text, s: string) {
    ts != [] && ts[0] == Raw(s)
  }

  predicate IsSign(s: string) {
    s == "=" || s == "!=" || s == ">" || s == ">=" || s == "<" || s == "<="
  }

  function ParseOperand(ts: Text): (r: Parsed<Operand>)
    ensures r.Some? ==> |r.value.1| < |ts|
    decreases |ts|
  {
    if ts == [] then None
    else match ts[0]
      case Ident(rel) =>
        if |ts| >= 3 && ts[1] == Raw(".") && ts[2].Ident? then
          var c, rest := ColumnRef(rel, ts[2].name), ts[3..];
          if |rest| >= 3 && rest[0] == Raw("->>") && rest[1].Bound? && rest[2] == Raw("::text")
          then Some((JsonField(c, rest[1].v), rest[3..]))
          else Some((c, rest))
        else None
      case Bound(v) => Some((Lit(v), ts[1..]))
      case Raw(s) =>
        if s == "0" || s == "1" then Some((Number(s), ts[1..]))
        else if (s == "LOWER" || s == "json_quote") && At(ts[1..], "(") then
          var r := ParseOperand(ts[2..]);
          if r.Some? && At(r.value.1, ")")
          then Some((if s == "LOWER" then Lower(r.value.0) else JsonQuote(r.value.0), r.value.1[1..]))
          else None
        else if s == "json_extract" && At(ts[1..], "(") then
          var r := ParseOperand(ts[2..]);
          if r.Some? && |r.value.1| >= 3 && r.value.1[0] == Raw(",") && r.value.1[1].Bound? && r.value.1[2] == Raw(")")
          then Some((JsonExtract(r.value.0, r.value.1[1].v), r.value.1[3..]))
          else None
        else None
      case _ => None
  }

  /** A comma-separated list and its closing parenthesis. */
  function ParseItems(ts: Text): (r: Parsed<seq<Operand>>)
    ensures r.Some? ==> |r.value.1| < |ts|
    decreases |ts|
  {
    match ParseOperand(ts)
    case None => None
    case Some(r) =>
      if At(r.1, ")") then Some(([r.0], r.1[1..]))
      else if At(r.1, ",") then
        match ParseItems(r.1[1..])
        case None => None
        case Some(more) => Some(([r.0] + more.0, more.1))
      else None
  }

  /** What may follow an operand. */
  function ParseTail(o: Operand, ts: Text): (r: Parsed<Pred>)
    ensures r.Some? ==> |r.value.1| < |ts|
  {
    if ts == [] || !ts[0].Raw? then None
    else if IsSign(ts[0].s) then
      match ParseOperand(ts[1..]) case None => None case Some(r) => Some((Compare(ts[0].s, o, r.0), r.1))
    else if ts[0].s == "IS NULL" || ts[0].s == "IS NOT NULL" then Some((NullTest(o, ts[0].s == "IS NOT NULL"), ts[1..]))
    else if ts[0].s == "LIKE" || ts[0].s == "ILIKE" then
      match ParseOperand(ts[1..])
      case None => None
      case Some(r) =>
        if |r.1| >= 2 && r.1[0] == Raw("ESCAPE") && r.1[1] == Raw("'\\'")
        then Some((LikeTest(o, r.0, ts[0].s == "ILIKE", true), r.1[2..]))
        else Some((LikeTest(o, r.0, ts[0].s == "ILIKE", false), r.1))
    else if (ts[0].s == "IN" || ts[0].s == "NOT IN") && At(ts[1..], "(") then
      match ParseItems(ts[2..]) case None => None case Some(r) => Some((InTest(o, r.0, ts[0].s == "NOT IN"), r.1))
    else if ts[0].s == "@>" && |ts| >= 3 && ts[1].Bound? && ts[2] == Raw("::jsonb") then Some((JsonContains(o, ts[1].v), ts[3..]))
    else None
  }

  const EACH_VALUE := JsonQuote(ColumnRef("json_each", "value"))

  /** EXISTS ( SELECT 1 FROM json_each ( doc ) WHERE json_quote("json_each"."value") = lit ) */
  function ParseExists(ts: Text): (r: Parsed<Pred>)
    ensures r.Some? ==> |r.value.1| < |ts|
  {
    if |ts| >= 3 && ts[0] == Raw("(") && ts[1] == Raw("SELECT 1 FROM json_each") && ts[2] == Raw("(") then
      match ParseOperand(ts[3..])
      case None => None
      case Some(doc) =>
        if |doc.1| >= 2 && doc.1[0] == Raw(")") && doc.1[1] == Raw("WHERE") then
          match ParseOperand(doc.1[2..])
          case None => None
          case Some(v) =>
            if v.0 == EACH_VALUE && At(v.1, "=") then
              match ParseOperand(v.1[1..])
              case None => None
              case Some(lit) => if At(lit.1, ")") then Some((JsonEach(doc.0, lit.0), lit.1[1..])) else None
            else None
        else None
    else None
  }

  /** A predicate that binds tighter than AND. */
  function ParsePredicate(ts: Text): (r: Parsed<Pred>)
    ensures r.Some? ==> |r.value.1| < |ts|
    decreases |ts|, 0
  {
    if At(ts, "(") then
      match ParseOr(ts[1..]) case None => None case Some(r) => if At(r.1, ")") then Some((r.0, r.1[1..])) else None
    else if At(ts, "NOT") then
      match ParsePredicate(ts[1..]) case None => None case Some(r) => Some((Not(r.0), r.1))
    else if At(ts, "EXISTS") then ParseExists(ts[1..])
    else match ParseOperand(ts) case None => None case Some(r) => ParseTail(r.0, r.1)
  }

  function ParseAnd(ts: Text): (r: Parsed<Pred>)
    ensures r.Some? ==> |r.value.1| < |ts|
    decreases |ts|, 1
  {
    match ParsePredicate(ts)
    case None => None
    case Some(r) =>
      if At(r.1, "AND") then
        match ParseAnd(r.1[1..]) case None => None case Some(more) => Some((And(r.0, more.0), more.1))
      else Some(r)
  }

  function ParseOr(ts: Text): (r: Parsed<Pred>)
    ensures r.Some? ==> |r.value.1| < |ts|
    decreases |ts|, 2
  {
    match ParseAnd(ts)
    case None => None
    case Some(r) =>
      if At(r.1, "OR") then
        match ParseOr(r.1[1..]) case None => None case Some(more) => Some((Or(r.0, more.0), more.1))
      else Some(r)
  }

  /** A whole WHERE body. */
  function Parse(ts: Text): Option<Pred> {
    match ParseOr(ts) case None => None case Some(r) => if r.1 == [] then Some(r.0) else None
  }

  // ---- meaning -------------------------------------------------------------------

  datatype Bool3 = True | False | Null

  function Of(b: bool): Bool3 { if b then True else False }

  function And3(a: Bool3, b: Bool3): Bool3 {
    if a == False || b == False then False else if a == True && b == True then True else Null
  }

  function Or3(a: Bool3, b: Bool3): Bool3 {
    if a == True || b == True then True else if a == False && b == False then False else Null
  }

  function Not3(a: Bool3): Bool3 {
    match a case True => False case False => True case Null => Null
  }

  /** What a database supplies: comparison of values that are not NULL, the case
      folding of LOWER and ILIKE, what a bare LIKE folds and escapes, and its JSON
      functions. Nil is NULL. */
  datatype Engine = Engine(
    compare: (string, GoValue, GoValue) -> bool,
    text: GoValue -> string,
    lower: char -> char,
    likeFold: char -> char,
    likeEscape: Option<char>,
    field: (GoValue, string) -> GoValue,
    extract: (GoValue, string) -> GoValue,
    quote: GoValue -> GoValue,
    contains: (GoValue, string) -> bool,
    element: (GoValue, string) -> bool)
  {
    /** LOWER leaves the LIKE metacharacters alone, and a bare LIKE does not fold
        lower-cased text any further; strings read back as themselves; 1 is 1 and
        is not 0. */
    ghost predicate Lawful() {
      && LikePattern.FoldsLetters(lower)
      && (forall c :: likeFold(lower(c)) == lower(c))
      && (forall s {:trigger Str(s)} :: text(Str(s)) == s)
      && compare("=", Int(1), Int(1)) && !compare("=", Int(1), Int(0))
    }
  }

  type Row = (string, string) -> GoValue

  function Eval(e: Engine, row: Row, o: Operand): GoValue {
    match o
    case ColumnRef(rel, col) => row(rel, col)
    case Lit(v) => v
    case Number(s) => Int(if s == "0" then 0 else 1)
    case JsonField(doc, key) => var d := Eval(e, row, doc); if d.Nil? then Nil else e.field(d, e.text(key))
    case JsonExtract(doc, path) => var d := Eval(e, row, doc); if d.Nil? then Nil else e.extract(d, e.text(path))
    case JsonQuote(o) => e.quote(Eval(e, row, o))
    case Lower(o) => var d := Eval(e, row, o); if d.Nil? then Nil else Str(LikePattern.Fold(e.lower, e.text(d)))
  }

  function Compare3(e: Engine, sign: string, x: GoValue, y: GoValue): Bool3 {
    if x.Nil? || y.Nil? then Null else Of(e.compare(sign, x, y))
  }

  function Like3(e: Engine, x: GoValue, y: GoValue, ilike: bool, escaped: bool): Bool3 {
    if x.Nil? || y.Nil? then Null
    else
      var fold := if ilike then e.lower else e.likeFold;
      Of(LikePattern.Matches(LikePattern.Fold(fold, e.text(y)), LikePattern.Fold(fold, e.text(x)),
                             if escaped then Some(LikePattern.ESC) else e.likeEscape))
  }

  function AnyEqual(e: Engine, row: Row, x: GoValue, items: seq<Operand>): Bool3 {
    if items == [] then False else Or3(Compare3(e, "=", x, Eval(e, row, items[0])), AnyEqual(e, row, x, items[1..]))
  }

  function Holds(e: Engine, row: Row, p: Pred): Bool3 {
    match p
    case Compare(sign, l, r) => Compare3(e, sign, Eval(e, row, l), Eval(e, row, r))
    case NullTest(o, negated) => Of(Eval(e, row, o).Nil? != negated)
    case LikeTest(l, r, ilike, escaped) => Like3(e, Eval(e, row, l), Eval(e, row, r), ilike, escaped)
    case InTest(o, items, negated) =>
      var any := AnyEqual(e, row, Eval(e, row, o), items);
      if negated then Not3(any) else any
    case JsonContains(doc, value) => var d := Eval(e, row, doc); if d.Nil? then Null else Of(e.contains(d, e.text(value)))
    case JsonEach(doc, lit) => var d := Eval(e, row, doc); if d.Nil? then False else Of(e.element(d, e.text(Eval(e, row, lit))))
    case And(p, q) => And3(Holds(e, row, p), Holds(e, row, q))
    case Or(p, q) => Or3(Holds(e, row, p), Holds(e, row, q))
    case Not(p) => Not3(Holds(e, row, p))
  }
}
