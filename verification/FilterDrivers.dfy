/** Where the two drivers' clauses agree, and the places where they do not: text whose
    case they fold differently, a raw pattern with a backslash, a negated has filter
    over a NULL column, and a locale column that a predicate does not write, or on
    SQLite writes twice. */
module FilterDrivers {
  import opened Wrappers
  import opened SqlText
  import opened Filters
  import opened FilterBuild
  import opened FilterMeaning
  import opened FilterTheorems
  import opened SampleEngines
  import P = SqlParser
  import LikePattern
  import LikeDrivers

  // ---- engines that store the same data -----------------------------------------------

  /** The two databases compare and read text alike; each folds case in its own way.
      Postgres escapes a bare LIKE with a backslash, SQLite with nothing. */
  ghost predicate SameText(pg: P.Engine, lite: P.Engine) {
    && pg.Lawful() && lite.Lawful()
    && pg.compare == lite.compare && pg.text == lite.text
    && pg.likeEscape == Some(LikePattern.ESC) && lite.likeEscape == None
  }

  /** Object fields and array elements are the same ones in both databases. */
  ghost predicate SameDocuments(host: Host, pg: P.Engine, lite: P.Engine) {
    && (forall doc, key :: pg.field(doc, key) == lite.extract(doc, "$." + key))
    && (forall doc, v :: host.marshal(v).Some? ==> pg.contains(doc, host.marshal(v).value) == lite.element(doc, host.marshal(v).value))
  }

  /** A key=value pair is contained in a document exactly when the value extracted
      at the key has the wanted encoding, which a NULL never has. */
  ghost predicate SamePairs(host: Host, pg: P.Engine, lite: P.Engine) {
    && (forall k, v :: host.marshalPair(k, v).Some? <==> host.marshal(Str(v)).Some?)
    && (forall v :: !lite.quote(v).Nil?)
    && (forall v :: host.marshal(Str(v)).Some? ==> !lite.compare("=", lite.quote(Nil), Str(host.marshal(Str(v)).value)))
    && (forall doc, k, v :: host.marshalPair(k, v).Some? && host.marshal(Str(v)).Some? ==>
          pg.contains(doc, host.marshalPair(k, v).value)
          == lite.compare("=", lite.quote(lite.extract(doc, "$.\"" + k + "\"")), Str(host.marshal(Str(v)).value)))
  }

  // ---- one filter ------------------------------------------------------------------------

  /** What a bare LIKE folds leaves the metacharacters alone. */
  ghost predicate BareLike(pg: P.Engine, lite: P.Engine) {
    LikePattern.FoldsLetters(pg.likeFold) && LikePattern.FoldsLetters(lite.likeFold)
  }

  function PatternFold(e: P.Engine, op: Op): char -> char {
    if op == Like then e.likeFold else e.lower
  }

  /** A raw pattern both drivers read alike: no backslash, and no character whose
      case they fold differently. */
  ghost predicate PortablePattern(pg: P.Engine, lite: P.Engine, op: Op, pattern: string) {
    LikePattern.ESC !in pattern && LikeDrivers.SameClasses(PatternFold(pg, op), PatternFold(lite, op), pattern)
  }

  /** Text operators with a value both drivers read alike. */
  ghost predicate PortableText(host: Host, pg: P.Engine, lite: P.Engine, op: Op, val: GoValue) {
    && (op == Like ==> BareLike(pg, lite))
    && (op == Like || op == ILike ==> PortablePattern(pg, lite, op, pg.text(val)))
    && (SubstringShape(op).Some? ==> LikeDrivers.SameClasses(pg.lower, lite.lower, SubstringValue(host, val)))
  }

  /** The value a filter's predicate is built with. */
  function UsedValue(host: Host, model: Model, f: Filter): GoValue {
    if f.isLocale || f.isNested then f.value
    else match ResolveFilterField(model, f.field) case None => f.value case Some(fm) => host.normalize(fm.kind, f.op, f.value)
  }

  /** Filters the two drivers read alike on a row: text without what they differ in,
      and no negated has over a NULL column. */
  ghost predicate Portable(host: Host, pg: P.Engine, lite: P.Engine, model: Model, f: Filter, row: P.Row) {
    && PortableText(host, pg, lite, f.op, UsedValue(host, model, f))
    && (f.op == NotHas && !f.isLocale && !f.isNested && ResolveFilterField(model, f.field).Some? ==>
          !row(model.table, ResolveFilterField(model, f.field).value.dbName).Nil?)
  }

  lemma OpAgrees(host: Host, pg: P.Engine, lite: P.Engine, op: Op, x: GoValue, val: GoValue)
    requires SameText(pg, lite) && PortableText(host, pg, lite, op, val)
    ensures OpTruth(host, pg, Postgres, op, x, val) == OpTruth(host, lite, SQLite, op, x, val)
  {
    hide OpTruth, P.Engine.Lawful, PortablePattern, LikeDrivers.SameClasses, SameText, BareLike;
    if SubstringShape(op).Some? {
      SubstringAgrees(host, pg, lite, op, x, val);
    } else if op == ILike || op == Like {
      PatternIff(pg, lite, op, val);
      LikeTruths(host, pg, lite, op, x, val);
    } else {
      PlainOpAgrees(host, pg, lite, op, x, val);
    }
  }

  lemma SubstringAgrees(host: Host, pg: P.Engine, lite: P.Engine, op: Op, x: GoValue, val: GoValue)
    requires SameText(pg, lite) && SubstringShape(op).Some?
    requires LikeDrivers.SameClasses(pg.lower, lite.lower, SubstringValue(host, val))
    ensures OpTruth(host, pg, Postgres, op, x, val) == OpTruth(host, lite, SQLite, op, x, val)
  {
    hide LikePattern.Fold, LikePattern.Shaped, SplitFilterList, P.Engine.Lawful, LikeDrivers.SameClasses, SubstringValue;
    LikeDrivers.ShapedAlike(SubstringShape(op).value, pg.lower, lite.lower, SubstringValue(host, val), pg.text(x));
  }

  lemma PlainOpAgrees(host: Host, pg: P.Engine, lite: P.Engine, op: Op, x: GoValue, val: GoValue)
    requires SameText(pg, lite) && SubstringShape(op).None? && op != Like && op != ILike
    ensures OpTruth(host, pg, Postgres, op, x, val) == OpTruth(host, lite, SQLite, op, x, val)
  {
    hide P.Engine.Lawful, SplitFilterList, P.Compare3, EqualAny;
    forall sign, y ensures P.Compare3(pg, sign, x, y) == P.Compare3(lite, sign, x, y) { CompareAgrees(pg, lite, sign, x, y); }
    EqualAnyAgrees(pg, lite, x, SplitFilterList(host, val));
  }

  lemma CompareAgrees(pg: P.Engine, lite: P.Engine, sign: string, x: GoValue, y: GoValue)
    requires SameText(pg, lite)
    ensures P.Compare3(pg, sign, x, y) == P.Compare3(lite, sign, x, y)
  {
    hide P.Engine.Lawful;
  }

  /** Both drivers' raw patterns accept the same texts. */
  ghost predicate SamePattern(pg: P.Engine, lite: P.Engine, op: Op, p: string) {
    LikeDrivers.SameLike(p, PatternFold(pg, op), Some(LikePattern.ESC), PatternFold(lite, op), None)
  }

  lemma LikeTruths(host: Host, pg: P.Engine, lite: P.Engine, op: Op, x: GoValue, val: GoValue)
    requires SameText(pg, lite) && (op == Like || op == ILike) && SamePattern(pg, lite, op, pg.text(val))
    ensures OpTruth(host, pg, Postgres, op, x, val) == OpTruth(host, lite, SQLite, op, x, val)
  {
    hide LikePattern.Matches, LikePattern.Fold, P.Engine.Lawful;
    var p, s := pg.text(val), pg.text(x);
    assert LikePattern.Matches(LikePattern.Fold(PatternFold(pg, op), p), LikePattern.Fold(PatternFold(pg, op), s), Some(LikePattern.ESC))
           == LikePattern.Matches(LikePattern.Fold(PatternFold(lite, op), p), LikePattern.Fold(PatternFold(lite, op), s), None);
  }

  lemma PatternIff(pg: P.Engine, lite: P.Engine, op: Op, val: GoValue)
    requires SameText(pg, lite) && (op == ILike || (op == Like && BareLike(pg, lite)))
    ensures SamePattern(pg, lite, op, pg.text(val)) <==> PortablePattern(pg, lite, op, pg.text(val))
  {
    hide LikeDrivers.SameLike, LikeDrivers.SameClasses;
    LikeDrivers.RawAgreesIff(PatternFold(pg, op), PatternFold(lite, op), pg.text(val));
  }

  lemma {:induction false} EqualAnyAgrees(pg: P.Engine, lite: P.Engine, x: GoValue, vs: seq<GoValue>)
    requires pg.compare == lite.compare
    ensures EqualAny(pg, x, vs) == EqualAny(lite, x, vs)
  {
    if vs != [] { EqualAnyAgrees(pg, lite, x, vs[1..]); }
  }

  /** Asked of a value that is not NULL the drivers give the same answer; of a NULL
      one Postgres answers NULL and SQLite false. */
  lemma HasAgrees(host: Host, pg: P.Engine, lite: P.Engine, fm: Field, x: GoValue, val: GoValue)
    requires SameText(pg, lite) && SameDocuments(host, pg, lite) && SamePairs(host, pg, lite)
    ensures var a, b := HasTruth(host, pg, Postgres, fm, x, val), HasTruth(host, lite, SQLite, fm, x, val);
            && (a.Some? <==> b.Some?)
            && (a.Some? && !x.Nil? ==> a == b)
            && (a.Some? && x.Nil? ==> a.value == P.Null && b.value == P.False)
  {
    hide CutPair, JsonPathSafeKey, P.Engine.Lawful;
  }

  lemma FilterAgrees(host: Host, pg: P.Engine, lite: P.Engine, model: Model, f: Filter, row: P.Row)
    requires SameText(pg, lite) && SameDocuments(host, pg, lite) && SamePairs(host, pg, lite)
    requires Portable(host, pg, lite, model, f, row)
    ensures Passes(host, pg, Postgres, model, f, row) <==> Passes(host, lite, SQLite, model, f, row)
  {
    hide OpTruth, HasTruth, P.Engine.Lawful, SamePairs, PortableText;
    if f.isLocale || f.isNested {
      assert RemoteValue(pg, Postgres, model, f, row) == RemoteValue(lite, SQLite, model, f, row);
      OpAgrees(host, pg, lite, f.op, RemoteValue(pg, Postgres, model, f, row), f.value);
    } else {
      var r := ResolveFilterField(model, f.field);
      if r.Some? {
        var fm := r.value;
        var x := row(model.table, fm.dbName);
        HasAgrees(host, pg, lite, fm, x, f.value);
        if f.op != Has && f.op != NotHas && FieldComparisonOp(f.op).None? {
          OpAgrees(host, pg, lite, f.op, x, host.normalize(fm.kind, f.op, f.value));
        }
      }
    }
  }

  // ---- whole clauses -----------------------------------------------------------------------

  ghost predicate AllPortable(host: Host, pg: P.Engine, lite: P.Engine, model: Model, fs: FilterList, row: P.Row) {
    forall f :: Some(f) in fs ==> Portable(host, pg, lite, model, f, row)
  }

  /** The two drivers' clauses, values in place, are true on the same rows. */
  lemma DriversAgree(host: Host, pg: P.Engine, lite: P.Engine, model: Model, fs: FilterList, row: P.Row)
    requires SameText(pg, lite) && SameDocuments(host, pg, lite) && SamePairs(host, pg, lite) && AllPortable(host, pg, lite, model, fs, row)
    ensures BodyHolds(pg, row, InlineFilters(host, model, fs, Postgres)) <==> BodyHolds(lite, row, InlineFilters(host, model, fs, SQLite))
  {
    hide InlineFilters, BodyHolds, Passes, SameDocuments, SamePairs, Portable;
    ClauseMeansFilters(host, pg, model, fs, Postgres, row);
    ClauseMeansFilters(host, lite, model, fs, SQLite, row);
    forall f | Some(f) in fs ensures Passes(host, pg, Postgres, model, f, row) <==> Passes(host, lite, SQLite, model, f, row) {
      FilterAgrees(host, pg, lite, model, f, row);
    }
    SelectsByPassing(host, pg, Postgres, lite, SQLite, model, fs, row);
  }

  /** So are the texts as built, each with its own arguments put in. */
  lemma BuiltClausesAgree(host: Host, pg: P.Engine, lite: P.Engine, model: Model, fs: FilterList, row: P.Row,
                          pgText: Text, pgArgs: seq<GoValue>, liteText: Text, liteArgs: seq<GoValue>)
    requires SameText(pg, lite) && SameDocuments(host, pg, lite) && SamePairs(host, pg, lite) && AllPortable(host, pg, lite, model, fs, row)
    requires Means(Postgres, [], pgArgs, pgText, InlineFilters(host, model, fs, Postgres))
    requires Means(SQLite, [], liteArgs, liteText, InlineFilters(host, model, fs, SQLite))
    ensures BodyHolds(pg, row, Resolve(pgText, pgArgs, 0)) <==> BodyHolds(lite, row, Resolve(liteText, liteArgs, 0))
  {
    hide InlineFilters, BodyHolds, SameText, SameDocuments, SamePairs, AllPortable;
    DriversAgree(host, pg, lite, model, fs, row);
  }

  lemma SelectsByPassing(host: Host, e: P.Engine, d: Driver, e': P.Engine, d': Driver, model: Model, fs: FilterList, row: P.Row)
    requires forall f :: Some(f) in fs ==> (Passes(host, e, d, model, f, row) <==> Passes(host, e', d', model, f, row))
    ensures Selects(host, e, d, model, fs, row) <==> Selects(host, e', d', model, fs, row)
  {
    hide Passes;
    forall f | Some(f) in fs
      ensures GroupPasses(host, e, d, model, fs, f.group, row) <==> GroupPasses(host, e', d', model, fs, f.group, row)
    {
    }
  }

  /** A well-formed not_has filter: the drivers agree on a row exactly when its
      column is not NULL there. */
  lemma NotHasAgreesIff(host: Host, pg: P.Engine, lite: P.Engine, model: Model, f: Filter, row: P.Row)
    requires SameText(pg, lite) && SameDocuments(host, pg, lite) && SamePairs(host, pg, lite)
    requires f.op == NotHas && !f.isLocale && !f.isNested && ResolveFilterField(model, f.field).Some?
    requires var fm := ResolveFilterField(model, f.field).value;
             HasTruth(host, pg, Postgres, fm, row(model.table, fm.dbName), f.value).Some?
    ensures (Passes(host, pg, Postgres, model, f, row) <==> Passes(host, lite, SQLite, model, f, row))
            <==> !row(model.table, ResolveFilterField(model, f.field).value.dbName).Nil?
  {
    hide HasTruth, SamePairs, SameDocuments, P.Engine.Lawful;
    var fm := ResolveFilterField(model, f.field).value;
    HasAgrees(host, pg, lite, fm, row(model.table, fm.dbName), f.value);
  }

  /** not_has over a NULL column: SQLite selects the row and Postgres does not. */
  lemma NotHasOverNull()
    ensures var tags, f := Field("tags", "tags", TextKind, true, false),
                           Filter("tags", NotHas, Str("urgent"), "", false, "", "", false, "", 0);
            var model, row: P.Row := Model("Task", "tasks", [tags]), (table, col) => Nil;
            !Passes(HOST, PG, Postgres, model, f, row) && Passes(HOST, LITE, SQLite, model, f, row)
  {
    var tags := Field("tags", "tags", TextKind, true, false);
    assert ResolveFilterField(Model("Task", "tasks", [tags]), "tags") == Some(tags);
  }

  // ---- text ------------------------------------------------------------------------------------

  ghost predicate AgreeOnEveryRow(host: Host, pg: P.Engine, lite: P.Engine, model: Model, f: Filter) {
    forall row: P.Row :: Passes(host, pg, Postgres, model, f, row) <==> Passes(host, lite, SQLite, model, f, row)
  }

  /** A filter on a column of the model with a text operator, its value not NULL. */
  predicate PlainText(host: Host, model: Model, f: Filter) {
    && !f.isLocale && !f.isNested && ResolveFilterField(model, f.field).Some?
    && (SubstringShape(f.op).Some? || ((f.op == Like || f.op == ILike) && !UsedValue(host, model, f).Nil?))
  }

  /** A like, ilike, contains, starts_with or ends_with filter on a column selects the
      same rows on both drivers, whatever the rows hold, exactly when its text has no
      character whose case they fold differently and, for the first two, no
      backslash. */
  lemma TextAgreesIff(host: Host, pg: P.Engine, lite: P.Engine, model: Model, f: Filter)
    requires SameText(pg, lite) && (f.op == Like ==> BareLike(pg, lite)) && PlainText(host, model, f)
    ensures AgreeOnEveryRow(host, pg, lite, model, f) <==> PortableText(host, pg, lite, f.op, UsedValue(host, model, f))
  {
    hide OpTruth, PortableText, P.Engine.Lawful, ResolveFilterField, BareLike;
    var val := UsedValue(host, model, f);
    if PortableText(host, pg, lite, f.op, val) {
      forall row: P.Row ensures Passes(host, pg, Postgres, model, f, row) <==> Passes(host, lite, SQLite, model, f, row) {
        OpAgrees(host, pg, lite, f.op, row(model.table, ResolveFilterField(model, f.field).value.dbName), val);
      }
    } else {
      var s := TextApart(host, pg, lite, f.op, val);
      var row: P.Row := (table, col) => Str(s);
      assert Passes(host, pg, Postgres, model, f, row) != Passes(host, lite, SQLite, model, f, row);
    }
  }

  lemma TextApart(host: Host, pg: P.Engine, lite: P.Engine, op: Op, val: GoValue) returns (s: string)
    requires SameText(pg, lite) && (op == Like ==> BareLike(pg, lite)) && !PortableText(host, pg, lite, op, val)
    requires SubstringShape(op).Some? || ((op == Like || op == ILike) && !val.Nil?)
    ensures (OpTruth(host, pg, Postgres, op, Str(s), val) == P.True) != (OpTruth(host, lite, SQLite, op, Str(s), val) == P.True)
  {
    hide LikePattern.Matches, LikePattern.Fold, LikePattern.Shaped, LikeDrivers.SameClasses, BareLike, LikePattern.FoldsLetters;
    if SubstringShape(op).Some? {
      var v, shape := SubstringValue(host, val), SubstringShape(op).value;
      LikeDrivers.ShapedAgreesIff(shape, pg.lower, lite.lower, v);
      s :| LikePattern.Shaped(shape, LikePattern.Fold(pg.lower, v), LikePattern.Fold(pg.lower, s))
           != LikePattern.Shaped(shape, LikePattern.Fold(lite.lower, v), LikePattern.Fold(lite.lower, s));
    } else {
      var p, g, h := pg.text(val), PatternFold(pg, op), PatternFold(lite, op);
      PatternIff(pg, lite, op, val);
      s :| LikePattern.Matches(LikePattern.Fold(g, p), LikePattern.Fold(g, s), Some(LikePattern.ESC))
           != LikePattern.Matches(LikePattern.Fold(h, p), LikePattern.Fold(h, s), None);
    }
    assert pg.text(Str(s)) == s;
  }

  /** For raw patterns under a Postgres whose LIKE tells cases apart, as the framework
      promises of like, and one fold for ilike: no backslash, and in a like no letter
      whose case SQLite folds. */
  lemma RawPatternAgreesIff(host: Host, pg: P.Engine, lite: P.Engine, model: Model, f: Filter)
    requires SameText(pg, lite) && BareLike(pg, lite) && (f.op == Like || f.op == ILike) && PlainText(host, model, f)
    requires forall c :: pg.likeFold(c) == c && pg.lower(c) == lite.lower(c)
    ensures AgreeOnEveryRow(host, pg, lite, model, f) <==>
            var p := pg.text(UsedValue(host, model, f));
            LikePattern.ESC !in p && (f.op == Like ==> LikeDrivers.NoCases(lite.likeFold, p))
  {
    hide AgreeOnEveryRow, UsedValue, PlainText, LikeDrivers.NoCases, LikeDrivers.SameClasses;
    var p := pg.text(UsedValue(host, model, f));
    TextAgreesIff(host, pg, lite, model, f);
    LikeDrivers.ClassesUnfolded(pg.likeFold, lite.likeFold, p);
    LikeDrivers.ClassesAlike(pg.lower, lite.lower, p);
  }

  const TITLED := Model("Post", "posts", [Field("title", "title", TextKind, false, false)])

  function Titled(op: Op, pattern: string): Filter {
    Filter("title", op, Str(pattern), "", false, "", "", false, "", 0)
  }

  lemma TitlePasses(e: P.Engine, d: Driver, op: Op, pattern: string, title: string)
    requires op == Like || op == ILike
    ensures Passes(HOST, e, d, TITLED, Titled(op, pattern), (table, col) => Str(title))
            <==> P.Like3(e, Str(title), Str(pattern), op == ILike, false) == P.True
  {
    assert ResolveFilterField(TITLED, "title") == Some(TITLED.fields[0]);
  }

  /** like "A" over the title "a": SQLite selects the row, Postgres does not. ilike
      "%" escaped by a backslash over the title "%": the other way round. */
  lemma RawPatternsApart()
    ensures var row: P.Row := (table, col) => Str("a");
            !Passes(HOST, PG, Postgres, TITLED, Titled(Like, "A"), row) && Passes(HOST, LITE, SQLite, TITLED, Titled(Like, "A"), row)
    ensures var row: P.Row := (table, col) => Str("%");
            Passes(HOST, PG, Postgres, TITLED, Titled(ILike, "\\%"), row) && !Passes(HOST, LITE, SQLite, TITLED, Titled(ILike, "\\%"), row)
  {
    hide Passes, LikePattern.Matches, LikePattern.Fold;
    TitlePasses(PG, Postgres, Like, "A", "a");
    TitlePasses(LITE, SQLite, Like, "A", "a");
    TitlePasses(PG, Postgres, ILike, "\\%", "%");
    TitlePasses(LITE, SQLite, ILike, "\\%", "%");
    FoldedSamples();
    MatchedSamples();
  }

  lemma FoldedSamples()
    ensures LikePattern.Fold(LowerLetter, "A") == "a" && LikePattern.Fold(LowerLetter, "a") == "a"
    ensures LikePattern.Fold(PG.likeFold, "A") == "A" && LikePattern.Fold(PG.likeFold, "a") == "a"
    ensures forall lower :: lower == LowerLetter || lower == LowerAccented ==>
              LikePattern.Fold(lower, "%") == "%" && LikePattern.Fold(lower, "\\%") == "\\%"
  {
    assert "\\%"[1..] == "%" && "%"[1..] == "" && "A"[1..] == "" && "a"[1..] == "";
  }

  lemma MatchedSamples()
    ensures !LikePattern.Matches("A", "a", Some(LikePattern.ESC)) && LikePattern.Matches("a", "a", None)
    ensures LikePattern.Matches("\\%", "%", Some(LikePattern.ESC)) && !LikePattern.Matches("\\%", "%", None)
  {
  }

  /** contains of an accented capital over its small letter: Postgres selects the row,
      SQLite, which folds only A to Z, does not. */
  lemma AccentsApart()
    ensures var row: P.Row := (table, col) => Str("\U{E9}");
            && Passes(HOST, PG, Postgres, TITLED, Titled(Contains, "\U{C9}"), row)
            && !Passes(HOST, LITE, SQLite, TITLED, Titled(Contains, "\U{C9}"), row)
  {
    hide LikePattern.Shaped;
    var up, low := "\U{C9}", "\U{E9}";
    assert up[1..] == "" && low[1..] == "";
    assert LikePattern.Fold(LowerAccented, up) == low && LikePattern.Fold(LowerAccented, low) == low;
    assert LikePattern.Fold(LowerLetter, up) == up && LikePattern.Fold(LowerLetter, low) == low;
    LikeDrivers.ShapedStands(LikePattern.Contains, low, low);
    LikeDrivers.ShapedStands(LikePattern.Contains, up, low);
    assert LikeDrivers.StandsAt(low, low, 0);
    assert ResolveFilterField(TITLED, "title") == Some(TITLED.fields[0]);
  }

  // ---- filters that select nothing -------------------------------------------------------------

  /** A plain filter on a name the model does not know, or compared with one. */
  predicate Unresolvable(model: Model, f: Filter) {
    && !f.isLocale && !f.isNested
    && (ResolveFilterField(model, f.field).None? || (FieldComparisonOp(f.op).Some? && ResolveFilterField(model, f.valueField).None?))
  }

  /** Malformed: an operator nothing renders, BETWEEN without two bounds, or a has
      whose value cannot be encoded or whose column is not JSON. */
  predicate Malformed(host: Host, e: P.Engine, d: Driver, model: Model, f: Filter, row: P.Row) {
    || f.op.Unknown?
    || ((f.isLocale || f.isNested) && (FieldComparisonOp(f.op).Some? || f.op == Has || f.op == NotHas))
    || (f.op == Between && |SplitFilterList(host, UsedValue(host, model, f))| != 2)
    || (!f.isLocale && !f.isNested && (f.op == Has || f.op == NotHas) && ResolveFilterField(model, f.field).Some?
        && var fm := ResolveFilterField(model, f.field).value; HasTruth(host, e, d, fm, row(model.table, fm.dbName), f.value).None?)
  }

  /** An ungrouped filter that cannot be resolved or is malformed leaves a clause
      that is true on no row at all, negated operators included. */
  lemma BrokenFilterSelectsNothing(host: Host, e: P.Engine, d: Driver, model: Model, fs: FilterList, f: Filter, row: P.Row, t: Text, args: seq<GoValue>)
    requires e.Lawful() && (d.SQLite? ==> AllFit(host, fs, d)) && Some(f) in fs && f.group <= 0
    requires Unresolvable(model, f) || Malformed(host, e, d, model, f, row)
    requires TextDone(d, [], args, AllFit(host, fs, d), TotalSurplus(host, fs), t, InlineFilters(host, model, fs, d))
    ensures !BodyHolds(e, row, Resolve(t, args, 0))
  {
    hide TextDone, InlineFilters, BodyHolds, TotalSurplus, Resolve, AllFit, P.Engine.Lawful;
    BuiltClauseMeansFilters(host, e, model, fs, d, row, args, t);
    BrokenNeverPasses(host, e, d, model, f, row);
  }

  lemma BrokenNeverPasses(host: Host, e: P.Engine, d: Driver, model: Model, f: Filter, row: P.Row)
    requires Unresolvable(model, f) || Malformed(host, e, d, model, f, row)
    ensures !Passes(host, e, d, model, f, row)
  {
    hide HasTruth, SplitFilterList;
  }

  // ---- misaligned placeholders on SQLite -------------------------------------------------------

  lemma {:induction false} LonePartition(f: Filter)
    ensures f.group <= 0 ==> Ungrouped([Some(f)]) == [f] && GroupOrder([Some(f)]) == []
    ensures f.group > 0 ==> Ungrouped([Some(f)]) == [] && GroupOrder([Some(f)]) == [f.group] && Members([Some(f)], f.group) == [f]
  {
    var fs: FilterList := [Some(f)];
    assert fs[..0] == [];
    if f.group <= 0 {
      assert Ungrouped(fs) == [f] && FirstSeen(fs) == [];
    } else {
      assert Ungrouped(fs) == [] && FirstSeen(fs) == [f.group] && Members(fs, f.group) == [f];
      assert [f.group][1..] == [] && SortInts([]) == [];
    }
  }

  lemma {:induction false} LoneSurplus(host: Host, f: Filter)
    ensures TotalSurplus(host, [Some(f)]) == Surplus(host, f)
  {
    hide Surplus, Ungrouped, GroupOrder, Members;
    LonePartition(f);
    assert [f][..0] == [] && SumSurplus(host, []) == 0 && SumSurplus(host, [f]) == Surplus(host, f);
    if f.group > 0 {
      assert [f.group][..0] == [] && GroupSurplus(host, [Some(f)], []) == 0;
      assert GroupSurplus(host, [Some(f)], [f.group]) == SumSurplus(host, [f]);
    }
  }

  /** The text as built for a list on SQLite: the k-th "?" takes the argument it was
      written for, for every k, and no argument is left over, exactly when every
      filter of the list fits. Whether the numbers agree is another matter. */
  lemma AlignedIffAllFit(host: Host, model: Model, fs: FilterList, args: seq<GoValue>, t: Text)
    requires TextDone(SQLite, [], args, AllFit(host, fs, SQLite), TotalSurplus(host, fs), t, InlineFilters(host, model, fs, SQLite))
    ensures (Holes(t) == |args| && forall k :: 0 <= k < Holes(t) ==> WrittenFor(t, k) == k + 1) <==> AllFit(host, fs, SQLite)
    ensures Holes(t) == |args| <==> TotalSurplus(host, fs) == 0
  {
    hide AllFit, TotalSurplus, InlineFilters, Renders, Ranged;
    NumberingByHole(t, 0);
    assert Lined(t, 0, |args|) <==> AllFit(host, fs, SQLite);
    InTurnFromOne(t);
  }

  lemma InTurnFromOne(t: Text)
    ensures InTurn(t, 0) <==> forall k :: 0 <= k < Holes(t) ==> WrittenFor(t, k) == k + 1
  {
    if InTurn(t, 0) {
      forall k | 0 <= k < Holes(t) ensures WrittenFor(t, k) == k + 1 { assert WrittenFor(t, k) == 0 + 1 + k; }
    } else {
      var k :| 0 <= k < Holes(t) && WrittenFor(t, k) != 0 + 1 + k;
      assert WrittenFor(t, k) != k + 1;
    }
  }

  /** A lone filter's "?" and arguments on SQLite match in number exactly when the
      filter fits it: a locale filter that writes its column once. */
  lemma CountsAgreeIffFits(host: Host, f: Filter)
    ensures TotalSurplus(host, [Some(f)]) == 0 <==> AllFit(host, [Some(f)], SQLite)
  {
    LoneSurplus(host, f);
    assert Some(f) in [Some(f)];
  }

  /** BETWEEN over a locale column: one "?" too many on SQLite, while Postgres names
      the key twice and fits. */
  lemma LocaleBetweenMisaligns(host: Host, f: Filter)
    requires f.isLocale && f.op == Between && |SplitFilterList(host, f.value)| == 2
    ensures TotalSurplus(host, [Some(f)]) == 1 && !AllFit(host, [Some(f)], SQLite) && AllFit(host, [Some(f)], Postgres)
  {
    LoneSurplus(host, f);
    assert Some(f) in [Some(f)];
  }

  /** The operators that drop the column: those nothing renders over a locale column,
      an IN or NOT IN over no values, and a BETWEEN without two bounds. */
  predicate DropsColumn(host: Host, f: Filter) {
    || f.op.Unknown? || f.op == Has || f.op == NotHas || FieldComparisonOp(f.op).Some?
    || ((f.op == In || f.op == NotIn) && SplitFilterList(host, f.value) == [])
    || (f.op == Between && |SplitFilterList(host, f.value)| != 2)
  }

  /** A locale filter's key stays bound to nothing, on either driver, exactly with
      these. */
  lemma LocaleKeyOrphaned(host: Host, f: Filter)
    requires f.isLocale
    ensures DropsColumn(host, f) <==> !AllFit(host, [Some(f)], Postgres)
    ensures DropsColumn(host, f) <==> TotalSurplus(host, [Some(f)]) == -1
    ensures DropsColumn(host, f) ==> !AllFit(host, [Some(f)], SQLite)
  {
    hide TotalSurplus, ColumnUses, DropsColumn;
    LoneSurplus(host, f);
    DroppedUnused(host, f);
    assert Some(f) in [Some(f)];
  }

  lemma DroppedUnused(host: Host, f: Filter)
    ensures DropsColumn(host, f) <==> ColumnUses(host, f.op, f.value) == 0
  {
  }

  /** The text as built for a list on Postgres: every argument is named by some "$N"
      exactly when no locale filter of the list drops its column. */
  lemma NamedIffNoneDropped(host: Host, model: Model, fs: FilterList, args: seq<GoValue>, t: Text)
    requires TextDone(Postgres, [], args, AllFit(host, fs, Postgres), TotalSurplus(host, fs), t, InlineFilters(host, model, fs, Postgres))
    ensures (forall n: nat :: 1 <= n <= |args| ==> Numbered(n) in t)
            <==> forall f :: Some(f) in fs && f.isLocale ==> !DropsColumn(host, f)
  {
    hide TotalSurplus, InlineFilters, Means, Within, SplitFilterList;
    assert Covers(t, 0, |args|) <==> AllFit(host, fs, Postgres);
    CoversFromOne(t, |args|);
    forall f | Some(f) in fs ensures Fits(host, Postgres, f) <==> (f.isLocale ==> !DropsColumn(host, f)) { DroppedUnused(host, f); }
    if AllFit(host, fs, Postgres) {
      forall f | Some(f) in fs && f.isLocale ensures !DropsColumn(host, f) { assert Fits(host, Postgres, f); }
    }
  }

  lemma CoversFromOne(t: Text, n: nat)
    ensures Covers(t, 0, n) <==> forall k: nat :: 1 <= k <= n ==> Numbered(k) in t
  {
    if Covers(t, 0, n) {
      forall k: nat | 1 <= k <= n ensures Numbered(k) in t { assert 0 < k; }
    } else {
      var k: nat :| 0 < k <= n && Numbered(k) !in t;
    }
  }

  // A page of a shop with translated names.

  const SHELF := Model("Item", "items", [Field("name", "name", TextKind, false, false)])

  function Localised(op: Op, values: seq<GoValue>): Option<Filter> {
    Some(Filter("name", op, List(values), "", false, "", "", true, "en", 0))
  }

  const SHIFTED: FilterList := [Localised(Between, [Str("a"), Str("m")]), Localised(In, [])]

  lemma TwoSurplus(host: Host, f: Filter, g: Filter)
    requires f.group <= 0 && g.group <= 0
    ensures TotalSurplus(host, [Some(f), Some(g)]) == Surplus(host, f) + Surplus(host, g)
  {
    hide Surplus;
    var fs: FilterList := [Some(f), Some(g)];
    assert fs[..1] == [Some(f)] && [Some(f)][..0] == [];
    assert Ungrouped([Some(f)]) == [f] && Ungrouped(fs) == [f, g];
    assert FirstSeen([Some(f)]) == [] && FirstSeen(fs) == [] && GroupOrder(fs) == [];
    assert [f, g][..1] == [f] && [f][..0] == [];
    assert SumSurplus(host, [f]) == Surplus(host, f);
    assert SumSurplus(host, [f, g]) == SumSurplus(host, [f]) + Surplus(host, g);
  }

  lemma ShiftedSurplus()
    ensures TotalSurplus(HOST, SHIFTED) == 0 && !AllFit(HOST, SHIFTED, SQLite)
  {
    hide TotalSurplus;
    TwoSurplus(HOST, SHIFTED[0].value, SHIFTED[1].value);
    assert SHIFTED == [Some(SHIFTED[0].value), Some(SHIFTED[1].value)];
    assert Some(SHIFTED[0].value) in SHIFTED;
  }

  /** The silent failure: a BETWEEN and an empty IN over a translated column make as
      many "?" as arguments, so SQLite runs the statement, and some "?" takes an
      argument written for another. */
  method RunsShifted() returns (t: Text, args: seq<GoValue>)
    ensures Holes(t) == |args| && exists k :: 0 <= k < Holes(t) && WrittenFor(t, k) != k + 1
  {
    hide AllFit, TotalSurplus, InlineFilters, Renders, Ranged, Localised;
    var p := new Binder(SQLite);
    t := BuildFilterSQL(HOST, SHELF, SHIFTED, p);
    args := p.args;
    ShiftedSurplus();
    AlignedIffAllFit(HOST, SHELF, SHIFTED, args, t);
  }

  /** filter=name.en:has:x on Postgres: the clause is a constant, and the locale key
      stands bound to an argument that no "$N" names. */
  method NamesNoKey() returns (t: Text, args: seq<GoValue>)
    ensures t == FALSE_PREDICATE
    ensures exists n: nat :: 1 <= n <= |args| && Numbered(n) !in t
  {
    hide AllFit, TotalSurplus, InlineFilters, Means, Within, Localised, DropsColumn;
    var fs: FilterList := [Some(HAS_X)];
    var p := new Binder(Postgres);
    t := BuildFilterSQL(HOST, SHELF, fs, p);
    args := p.args;
    NamedIffNoneDropped(HOST, SHELF, fs, args, t);
    HasDropped();
    PlainMeans(Postgres, args, t, FALSE_PREDICATE);
  }

  const HAS_X := Filter("name", Has, Str("x"), "", false, "", "", true, "en", 0)

  lemma LoneInline(host: Host, model: Model, f: Filter, d: Driver)
    requires f.group <= 0
    ensures InlineFilters(host, model, [Some(f)], d) == InlineCond(host, model, f, d)
  {
    hide InlineCond, Ungrouped, GroupOrder, Members, InlineGroup;
    LonePartition(f);
    assert [f][..0] == [] && Conds(host, model, [f], d) == [InlineCond(host, model, f, d)];
    var parts := InlineParts(host, model, [Some(f)], d);
    assert parts == [InlineCond(host, model, f, d)];
  }

  lemma HasDropped()
    ensures HAS_X.isLocale && DropsColumn(HOST, HAS_X)
    ensures InlineFilters(HOST, SHELF, [Some(HAS_X)], Postgres) == FALSE_PREDICATE
  {
    hide InlineFilters, InlineColumn;
    LoneInline(HOST, SHELF, HAS_X, Postgres);
  }
}
