/** What each operator selects, in plain terms: on integers the order of the
    integers, on text the places of its characters. Carried through to the clause
    as built and read back. */
module FilterOperators {
  import opened Wrappers
  import opened SqlText
  import opened Filters
  import opened FilterBuild
  import opened FilterMeaning
  import opened FilterTheorems
  import P = SqlParser
  import LikePattern

  /** The engine compares integers as integers. */
  ghost predicate OrdersIntegers(e: P.Engine) {
    && (forall a, b :: e.compare("=", Int(a), Int(b)) <==> a == b)
    && (forall a, b :: e.compare("!=", Int(a), Int(b)) <==> a != b)
    && (forall a, b :: e.compare(">", Int(a), Int(b)) <==> a > b)
    && (forall a, b :: e.compare(">=", Int(a), Int(b)) <==> a >= b)
    && (forall a, b :: e.compare("<", Int(a), Int(b)) <==> a < b)
    && (forall a, b :: e.compare("<=", Int(a), Int(b)) <==> a <= b)
  }

  // ---- which column a name denotes, which values a list holds, where a pair is cut ------

  /** A name that is some field's column denotes the first such field, else the first
      with that JSON name, else nothing. */
  lemma {:induction false} ResolvesByColumnFirst(model: Model, name: string)
    ensures ResolveFilterField(model, name).None? <==> forall f :: f in model.fields ==> f.dbName != name && f.jsonName != name
    ensures ResolveFilterField(model, name).Some? ==>
              exists i :: 0 <= i < |model.fields| && ResolveFilterField(model, name) == Some(model.fields[i])
                && if exists f :: f in model.fields && f.dbName == name
                   then model.fields[i].dbName == name && forall j :: 0 <= j < i ==> model.fields[j].dbName != name
                   else model.fields[i].jsonName == name && forall j :: 0 <= j < i ==> model.fields[j].jsonName != name
  {
    FirstByColumn(model.fields, name);
    FirstByJSON(model.fields, name);
  }

  lemma {:induction false} FirstByColumn(fields: seq<Field>, name: string)
    ensures FieldByDBName(fields, name).None? <==> forall f :: f in fields ==> f.dbName != name
    ensures FieldByDBName(fields, name).Some? ==>
              exists i :: 0 <= i < |fields| && FieldByDBName(fields, name) == Some(fields[i]) && fields[i].dbName == name
                && forall j :: 0 <= j < i ==> fields[j].dbName != name
  {
    if fields != [] {
      FirstByColumn(fields[1..], name);
      assert fields == [fields[0]] + fields[1..];
      if fields[0].dbName != name && FieldByDBName(fields[1..], name).Some? {
        var i :| 0 <= i < |fields[1..]| && FieldByDBName(fields[1..], name) == Some(fields[1..][i]) && fields[1..][i].dbName == name
                 && forall j :: 0 <= j < i ==> fields[1..][j].dbName != name;
        assert forall j :: 1 <= j < i + 1 ==> fields[j] == fields[1..][j - 1];
        assert fields[i + 1] == fields[1..][i];
      }
    }
  }

  lemma {:induction false} FirstByJSON(fields: seq<Field>, name: string)
    ensures FieldByJSONName(fields, name).None? <==> forall f :: f in fields ==> f.jsonName != name
    ensures FieldByJSONName(fields, name).Some? ==>
              exists i :: 0 <= i < |fields| && FieldByJSONName(fields, name) == Some(fields[i]) && fields[i].jsonName == name
                && forall j :: 0 <= j < i ==> fields[j].jsonName != name
  {
    if fields != [] {
      FirstByJSON(fields[1..], name);
      assert fields == [fields[0]] + fields[1..];
      if fields[0].jsonName != name && FieldByJSONName(fields[1..], name).Some? {
        var i :| 0 <= i < |fields[1..]| && FieldByJSONName(fields[1..], name) == Some(fields[1..][i]) && fields[1..][i].jsonName == name
                 && forall j :: 0 <= j < i ==> fields[1..][j].jsonName != name;
        assert forall j :: 1 <= j < i + 1 ==> fields[j] == fields[1..][j - 1];
        assert fields[i + 1] == fields[1..][i];
      }
    }
  }

  /** A list is its elements; any other value is split as comma-separated text. */
  lemma {:induction false} ListHolds(host: Host, v: GoValue)
    ensures v.List? ==> SplitFilterList(host, v) == v.vs
    ensures !v.List? ==>
              var parts := host.splitCSV(host.sprint(v));
              |SplitFilterList(host, v)| == |parts| && forall i :: 0 <= i < |parts| ==> SplitFilterList(host, v)[i] == Str(parts[i])
  {
    if !v.List? { StrsAt(host.splitCSV(host.sprint(v))); }
  }

  lemma {:induction false} StrsAt(ss: seq<string>)
    ensures |Strs(ss)| == |ss| && forall i :: 0 <= i < |ss| ==> Strs(ss)[i] == Str(ss[i])
  {
    if ss != [] { StrsAt(ss[1..]); }
  }

  /** The cut is at the first "=". */
  lemma {:induction false} CutAtFirst(s: string, key: string, value: string)
    ensures CutPair(s) == Some((key, value)) <==> s == key + "=" + value && '=' !in key
    ensures CutPair(s).None? <==> '=' !in s
    decreases |s|
  {
    if s != "" {
      if s[0] == '=' {
        if s == key + "=" + value && '=' !in key {
          EqualFirst(key, value);
          assert s[1..] == value;
        }
        assert CutPair(s) == Some(("", s[1..])) && s == "" + "=" + s[1..];
      } else {
        CutAtFirst(s[1..], if key == "" then "" else key[1..], value);
        assert s == [s[0]] + s[1..];
        if key != "" {
          assert key == [key[0]] + key[1..];
          assert (key + "=" + value)[1..] == key[1..] + "=" + value && (key + "=" + value)[0] == key[0];
        } else {
          assert (key + "=" + value)[0] == '=';
        }
      }
    }
  }

  lemma EqualFirst(key: string, value: string)
    requires (key + "=" + value)[0] == '=' && '=' !in key
    ensures key == ""
  {
  }

  // ---- one filter on a row ---------------------------------------------------------------

  lemma IntegersCompare(e: P.Engine, x: int, v: int)
    requires OrdersIntegers(e)
    ensures P.Compare3(e, "=", Int(x), Int(v)) == P.Of(x == v) && P.Compare3(e, "!=", Int(x), Int(v)) == P.Of(x != v)
    ensures P.Compare3(e, ">", Int(x), Int(v)) == P.Of(x > v) && P.Compare3(e, ">=", Int(x), Int(v)) == P.Of(x >= v)
    ensures P.Compare3(e, "<", Int(x), Int(v)) == P.Of(x < v) && P.Compare3(e, "<=", Int(x), Int(v)) == P.Of(x <= v)
  {
  }

  /** An integer column against an integer. */
  lemma ComparisonSelects(host: Host, e: P.Engine, d: Driver, model: Model, f: Filter, row: P.Row, fm: Field, x: int, v: int)
    requires OrdersIntegers(e) && !f.isLocale && !f.isNested && ResolveFilterField(model, f.field) == Some(fm)
    requires row(model.table, fm.dbName) == Int(x) && host.normalize(fm.kind, f.op, f.value) == Int(v)
    ensures f.op == Eq ==> (Passes(host, e, d, model, f, row) <==> x == v)
    ensures f.op == Neq ==> (Passes(host, e, d, model, f, row) <==> x != v)
    ensures f.op == Gt ==> (Passes(host, e, d, model, f, row) <==> x > v)
    ensures f.op == Gte ==> (Passes(host, e, d, model, f, row) <==> x >= v)
    ensures f.op == Lt ==> (Passes(host, e, d, model, f, row) <==> x < v)
    ensures f.op == Lte ==> (Passes(host, e, d, model, f, row) <==> x <= v)
  {
    hide OrdersIntegers, P.Compare3, ResolveFilterField;
    IntegersCompare(e, x, v);
  }

  /** An integer column against another. */
  lemma FieldComparisonSelects(host: Host, e: P.Engine, d: Driver, model: Model, f: Filter, row: P.Row, fm: Field, rhs: Field, x: int, y: int)
    requires OrdersIntegers(e) && !f.isLocale && !f.isNested
    requires ResolveFilterField(model, f.field) == Some(fm) && ResolveFilterField(model, f.valueField) == Some(rhs)
    requires row(model.table, fm.dbName) == Int(x) && row(model.table, rhs.dbName) == Int(y)
    ensures f.op == EqField ==> (Passes(host, e, d, model, f, row) <==> x == y)
    ensures f.op == NeqField ==> (Passes(host, e, d, model, f, row) <==> x != y)
    ensures f.op == GtField ==> (Passes(host, e, d, model, f, row) <==> x > y)
    ensures f.op == GteField ==> (Passes(host, e, d, model, f, row) <==> x >= y)
    ensures f.op == LtField ==> (Passes(host, e, d, model, f, row) <==> x < y)
    ensures f.op == LteField ==> (Passes(host, e, d, model, f, row) <==> x <= y)
  {
    hide OrdersIntegers, P.Compare3, ResolveFilterField;
    IntegersCompare(e, x, y);
  }

  function Ints(ns: seq<int>): seq<GoValue> {
    seq(|ns|, i requires 0 <= i < |ns| => Int(ns[i]))
  }

  lemma {:induction false} AnyIsMember(e: P.Engine, x: int, ns: seq<int>)
    requires OrdersIntegers(e)
    ensures EqualAny(e, Int(x), Ints(ns)) == P.Of(x in ns)
  {
    hide OrdersIntegers, P.Compare3;
    if ns != [] {
      assert Ints(ns)[1..] == Ints(ns[1..]);
      IntegersCompare(e, x, ns[0]);
      AnyIsMember(e, x, ns[1..]);
      assert ns == [ns[0]] + ns[1..];
    }
  }

  /** An integer column against a list of integers: in and not_in are membership, an
      empty list included. */
  lemma MembershipSelects(host: Host, e: P.Engine, d: Driver, model: Model, f: Filter, row: P.Row, fm: Field, x: int, ns: seq<int>)
    requires OrdersIntegers(e) && !f.isLocale && !f.isNested && ResolveFilterField(model, f.field) == Some(fm)
    requires row(model.table, fm.dbName) == Int(x) && host.normalize(fm.kind, f.op, f.value) == List(Ints(ns))
    ensures f.op == In ==> (Passes(host, e, d, model, f, row) <==> x in ns)
    ensures f.op == NotIn ==> (Passes(host, e, d, model, f, row) <==> x !in ns)
  {
    hide ResolveFilterField, OrdersIntegers, EqualAny, Ints, P.Compare3;
    AnyIsMember(e, x, ns);
  }

  /** between is the closed range. */
  lemma RangeSelects(host: Host, e: P.Engine, d: Driver, model: Model, f: Filter, row: P.Row, fm: Field, x: int, ns: seq<int>)
    requires OrdersIntegers(e) && !f.isLocale && !f.isNested && ResolveFilterField(model, f.field) == Some(fm) && f.op == Between
    requires row(model.table, fm.dbName) == Int(x) && host.normalize(fm.kind, f.op, f.value) == List(Ints(ns))
    ensures Passes(host, e, d, model, f, row) <==> |ns| == 2 && ns[0] <= x <= ns[1]
  {
    hide ResolveFilterField, OrdersIntegers, P.Compare3;
    if |ns| == 2 {
      IntegersCompare(e, x, ns[0]);
      IntegersCompare(e, x, ns[1]);
    }
  }

  /** is_null and not_null. */
  lemma NullSelects(host: Host, e: P.Engine, d: Driver, model: Model, f: Filter, row: P.Row, fm: Field)
    requires !f.isLocale && !f.isNested && ResolveFilterField(model, f.field) == Some(fm)
    ensures f.op == IsNull ==> (Passes(host, e, d, model, f, row) <==> row(model.table, fm.dbName) == Nil)
    ensures f.op == NotNull ==> (Passes(host, e, d, model, f, row) <==> row(model.table, fm.dbName) != Nil)
  {
    hide ResolveFilterField;
  }

  /** v stands at place i of s, case aside. */
  predicate StandsIn(e: P.Engine, v: string, s: string, i: int) {
    0 <= i && i + |v| <= |s| && forall k :: 0 <= k < |v| ==> e.lower(s[i + k]) == e.lower(v[k])
  }

  /** contains, starts_with and ends_with over a column's text. */
  lemma TextSelects(host: Host, e: P.Engine, d: Driver, model: Model, f: Filter, row: P.Row, fm: Field, s: string)
    requires e.Lawful() && !f.isLocale && !f.isNested && ResolveFilterField(model, f.field) == Some(fm)
    requires row(model.table, fm.dbName) == Str(s)
    ensures var u := host.normalize(fm.kind, f.op, f.value);
            var v := if u == Nil then "" else host.sprint(u);
            && (f.op == Contains ==> (Passes(host, e, d, model, f, row) <==> exists i :: StandsIn(e, v, s, i)))
            && (f.op == StartsWith ==> (Passes(host, e, d, model, f, row) <==> StandsIn(e, v, s, 0)))
            && (f.op == EndsWith ==> (Passes(host, e, d, model, f, row) <==> StandsIn(e, v, s, |s| - |v|)))
  {
    hide ResolveFilterField, LikePattern.Shaped, LikePattern.Fold, StandsIn, LikePattern.FoldsLetters;
    var u := host.normalize(fm.kind, f.op, f.value);
    var v := if u == Nil then "" else host.sprint(u);
    assert e.text(Str(s)) == s;
    ShapedStands(e, v, s);
  }

  lemma ShapedStands(e: P.Engine, v: string, s: string)
    ensures LikePattern.Shaped(LikePattern.Contains, LikePattern.Fold(e.lower, v), LikePattern.Fold(e.lower, s)) <==> exists i :: StandsIn(e, v, s, i)
    ensures LikePattern.Shaped(LikePattern.StartsWith, LikePattern.Fold(e.lower, v), LikePattern.Fold(e.lower, s)) <==> StandsIn(e, v, s, 0)
    ensures LikePattern.Shaped(LikePattern.EndsWith, LikePattern.Fold(e.lower, v), LikePattern.Fold(e.lower, s)) <==> StandsIn(e, v, s, |s| - |v|)
  {
    hide LikePattern.Fold;
    var a, b := LikePattern.Fold(e.lower, v), LikePattern.Fold(e.lower, s);
    FoldEach(e.lower, v);
    FoldEach(e.lower, s);
    forall i | 0 <= i <= |s| ensures LikePattern.IsPrefix(a, b[i..]) <==> StandsIn(e, v, s, i) {
      if StandsIn(e, v, s, i) { assert b[i..][..|a|] == a; }
      if LikePattern.IsPrefix(a, b[i..]) {
        forall k | 0 <= k < |v| ensures e.lower(s[i + k]) == e.lower(v[k]) { assert b[i..][..|a|][k] == a[k]; }
      }
    }
    assert b[0..] == b;
    if |v| <= |s| {
      assert b[|s| - |v|..][..|v|] == b[|s| - |v|..];
      assert LikePattern.IsPrefix(a, b[|s| - |v|..]) <==> b[|s| - |v|..] == a;
    }
  }

  lemma {:induction false} FoldEach(fold: char -> char, s: string)
    ensures |LikePattern.Fold(fold, s)| == |s| && forall i :: 0 <= i < |s| ==> LikePattern.Fold(fold, s)[i] == fold(s[i])
  {
    if s != "" { FoldEach(fold, s[1..]); }
  }

  /** A translated column: the text under the locale's key, however the driver gets
      at it. A column of a related row: that row's. */
  lemma RemoteSelects(host: Host, e: P.Engine, d: Driver, model: Model, f: Filter, row: P.Row, x: int, v: int)
    requires OrdersIntegers(e) && f.value == Int(v)
    requires if f.isLocale then
               row(model.table, f.field) != Nil
               && Int(x) == if d.Postgres? then e.field(row(model.table, f.field), f.localeKey) else e.extract(row(model.table, f.field), "$." + f.localeKey)
             else f.isNested && row(f.relationKey, f.nestedField) == Int(x)
    ensures f.op == Eq ==> (Passes(host, e, d, model, f, row) <==> x == v)
    ensures f.op == Neq ==> (Passes(host, e, d, model, f, row) <==> x != v)
    ensures f.op == Gt ==> (Passes(host, e, d, model, f, row) <==> x > v)
    ensures f.op == Gte ==> (Passes(host, e, d, model, f, row) <==> x >= v)
    ensures f.op == Lt ==> (Passes(host, e, d, model, f, row) <==> x < v)
    ensures f.op == Lte ==> (Passes(host, e, d, model, f, row) <==> x <= v)
  {
    hide OrdersIntegers, P.Compare3;
    IntegersCompare(e, x, v);
  }

  /** has over an array: the encoded value is an element; not_has: it is not. */
  lemma ArrayHasSelects(host: Host, e: P.Engine, d: Driver, model: Model, f: Filter, row: P.Row, fm: Field, lit: string)
    requires !f.isLocale && !f.isNested && ResolveFilterField(model, f.field) == Some(fm) && fm.jsonArray
    requires host.marshal(f.value) == Some(lit) && row(model.table, fm.dbName) != Nil
    ensures var doc := row(model.table, fm.dbName);
            && (f.op == Has ==> (Passes(host, e, d, model, f, row) <==> if d.Postgres? then e.contains(doc, lit) else e.element(doc, lit)))
            && (f.op == NotHas ==> (Passes(host, e, d, model, f, row) <==> !if d.Postgres? then e.contains(doc, lit) else e.element(doc, lit)))
  {
    hide ResolveFilterField;
  }

  /** has over an object, key=value: the text at the key is the value, for a key that
      is not empty and holds neither a quote nor a backslash; any other is false,
      negated or not. */
  lemma ObjectHasSelects(host: Host, e: P.Engine, model: Model, f: Filter, row: P.Row, fm: Field, key: string, v: string, lit: string)
    requires !f.isLocale && !f.isNested && ResolveFilterField(model, f.field) == Some(fm) && !fm.jsonArray && fm.jsonObject
    requires host.sprint(f.value) == key + "=" + v && '=' !in key && host.marshal(Str(v)) == Some(lit)
    requires row(model.table, fm.dbName) != Nil
    ensures key == "" || '"' in key || '\\' in key ==>
              (f.op == Has || f.op == NotHas ==> !Passes(host, e, SQLite, model, f, row) && !Passes(host, e, Postgres, model, f, row))
    ensures key != "" && '"' !in key && '\\' !in key ==>
              var at := e.quote(e.extract(row(model.table, fm.dbName), "$.\"" + key + "\""));
              && (f.op == Has ==> (Passes(host, e, SQLite, model, f, row) <==> at != Nil && e.compare("=", at, Str(lit))))
              && (f.op == NotHas ==> (Passes(host, e, SQLite, model, f, row) <==> at != Nil && !e.compare("=", at, Str(lit))))
  {
    hide ResolveFilterField, CutPair;
    CutAtFirst(host.sprint(f.value), key, v);
  }

  // ---- the clause as built -----------------------------------------------------------------

  /** The filter compares an integer column with an integer. */
  predicate ComparesIntegers(host: Host, model: Model, f: Filter, row: P.Row, x: int, v: int) {
    && f.op in {Eq, Neq, Gt, Gte, Lt, Lte} && !f.isLocale && !f.isNested && f.group <= 0
    && match ResolveFilterField(model, f.field)
       case None => false
       case Some(fm) => row(model.table, fm.dbName) == Int(x) && host.normalize(fm.kind, f.op, f.value) == Int(v)
  }

  predicate Meets(op: Op, x: int, v: int) {
    match op case Eq => x == v case Neq => x != v case Gt => x > v case Gte => x >= v case Lt => x < v case Lte => x <= v case _ => false
  }

  lemma ComparisonMeets(host: Host, e: P.Engine, d: Driver, model: Model, f: Filter, row: P.Row, x: int, v: int)
    requires OrdersIntegers(e) && ComparesIntegers(host, model, f, row, x, v)
    ensures Passes(host, e, d, model, f, row) <==> Meets(f.op, x, v)
  {
    hide OrdersIntegers, ResolveFilterField, Passes;
    ComparisonSelects(host, e, d, model, f, row, ResolveFilterField(model, f.field).value, x, v);
  }

  /** The text BuildFilterSQL made of integer comparisons, read back with its own
      arguments, is true of a row exactly when each of them holds of the integers,
      whatever these are. */
  lemma BuiltComparisonsHold(host: Host, e: P.Engine, model: Model, fs: FilterList, d: Driver, row: P.Row, args: seq<GoValue>, t: Text,
                             xs: Filter -> int, vs: Filter -> int)
    requires e.Lawful() && OrdersIntegers(e)
    requires forall f :: Some(f) in fs ==> ComparesIntegers(host, model, f, row, xs(f), vs(f))
    requires TextDone(d, [], args, AllFit(host, fs, d), TotalSurplus(host, fs), t, InlineFilters(host, model, fs, d))
    ensures BodyHolds(e, row, Resolve(t, args, 0)) <==> forall f :: Some(f) in fs ==> Meets(f.op, xs(f), vs(f))
  {
    hide TextDone, InlineFilters, BodyHolds, TotalSurplus, Resolve, P.Engine.Lawful, OrdersIntegers, ResolveFilterField, Passes, ColumnUses, Meets;
    BuiltClauseMeansFilters(host, e, model, fs, d, row, args, t);
    forall f | Some(f) in fs ensures f.group <= 0 && (Passes(host, e, d, model, f, row) <==> Meets(f.op, xs(f), vs(f))) {
      ComparisonMeets(host, e, d, model, f, row, xs(f), vs(f));
    }
  }
  // ---- one clause, to the letter -------------------------------------------------------------

  const ITEMS := Model("Item", "items", [
    Field("price", "price", NumberKind, false, false),
    Field("stock", "inStock", NumberKind, false, false),
    Field("title", "title", TextKind, false, false)])

  function Plain(field: string, op: Op, value: GoValue, group: int): Filter {
    Filter(field, op, value, "", false, "", "", false, "", group)
  }

  const DEAR := Plain("price", Gt, Int(100), 0)
  const NONE_LEFT := Plain("inStock", Eq, Int(0), 2)
  const CHEAP := Plain("price", Lte, Int(5), 2)

  const AS_IT_IS := Host((v: GoValue) => if v.Str? then v.s else "", s => [s], (kind, op, v) => v, v => None, (k, v) => None)

  lemma SampleConds(d: Driver)
    ensures InlineCond(AS_IT_IS, ITEMS, DEAR, d) == [Ident("items"), Raw("."), Ident("price"), Raw(">"), Bound(Int(100))]
    ensures InlineCond(AS_IT_IS, ITEMS, NONE_LEFT, d) == [Ident("items"), Raw("."), Ident("stock"), Raw("="), Bound(Int(0))]
    ensures InlineCond(AS_IT_IS, ITEMS, CHEAP, d) == [Ident("items"), Raw("."), Ident("price"), Raw("<="), Bound(Int(5))]
  {
    var fields := ITEMS.fields;
    assert FieldByDBName(fields, "price") == Some(fields[0]);
    assert FieldByDBName(fields[3..], "inStock") == None;
    assert fields[1..][1..] == fields[2..] && fields[2..][1..] == fields[3..];
    assert FieldByDBName(fields[2..], "inStock") == None;
    assert FieldByDBName(fields[1..], "inStock") == None;
    assert FieldByDBName(fields, "inStock") == None;
    assert FieldByJSONName(fields[1..], "inStock") == Some(fields[1]);
  }

  lemma SamplePartition()
    ensures var fs: FilterList := [Some(NONE_LEFT), Some(DEAR), Some(CHEAP)];
            Ungrouped(fs) == [DEAR] && GroupOrder(fs) == [2] && Members(fs, 2) == [NONE_LEFT, CHEAP]
  {
    var fs: FilterList := [Some(NONE_LEFT), Some(DEAR), Some(CHEAP)];
    var two, one: FilterList := [Some(NONE_LEFT), Some(DEAR)], [Some(NONE_LEFT)];
    assert fs[..2] == two && two[..1] == one && one[..0] == [];
    assert DEAR.group == 0 && NONE_LEFT.group == 2 && CHEAP.group == 2;
    assert Ungrouped(one) == [];
    assert Ungrouped(two) == Ungrouped(one) + [DEAR];
    assert Members(one, 2) == [NONE_LEFT] && Members(two, 2) == [NONE_LEFT];
    assert FirstSeen(one) == [2] && FirstSeen(two) == [2] && FirstSeen(fs) == [2];
    assert [2][1..] == [] && SortInts([]) == [];
  }

  lemma PairJoins(a: Text, b: Text, sep: Text)
    ensures Join([a, b], sep) == a + sep + b
  {
    assert [a, b][..1] == [a] && Join([a], sep) == a;
  }

  lemma PairGroup(host: Host, model: Model, f: Filter, g: Filter, d: Driver)
    ensures InlineGroup(host, model, [f, g], d) == [Raw("(")] + (InlineCond(host, model, f, d) + OR + InlineCond(host, model, g, d)) + [Raw(")")]
  {
    hide InlineCond, Join;
    assert [f, g][..1] == [f] && [f][..0] == [];
    assert Conds(host, model, [f], d) == [InlineCond(host, model, f, d)];
    assert Conds(host, model, [f, g], d) == [InlineCond(host, model, f, d), InlineCond(host, model, g, d)];
    PairJoins(InlineCond(host, model, f, d), InlineCond(host, model, g, d), OR);
  }

  /** One ungrouped filter and one group. */
  lemma PairInline(host: Host, model: Model, fs: FilterList, f: Filter, g: int, d: Driver)
    requires Ungrouped(fs) == [f] && GroupOrder(fs) == [g] && Members(fs, g) != []
    ensures InlineFilters(host, model, fs, d) == InlineCond(host, model, f, d) + AND + InlineGroup(host, model, Members(fs, g), d)
  {
    hide InlineCond, Join, Ungrouped, Members, GroupOrder, InlineGroup;
    OrderNonEmpty(fs);
    assert [f][..0] == [] && Conds(host, model, [f], d) == [InlineCond(host, model, f, d)];
    assert [g][..0] == [] && GroupConds(host, model, fs, [g], d) == [InlineGroup(host, model, Members(fs, g), d)];
    assert InlineParts(host, model, fs, d) == [InlineCond(host, model, f, d), InlineGroup(host, model, Members(fs, g), d)];
    PairJoins(InlineCond(host, model, f, d), InlineGroup(host, model, Members(fs, g), d), AND);
  }

  lemma SampleInline(d: Driver)
    ensures InlineFilters(AS_IT_IS, ITEMS, [Some(NONE_LEFT), Some(DEAR), Some(CHEAP)], d) ==
            [Ident("items"), Raw("."), Ident("price"), Raw(">"), Bound(Int(100)), Raw("AND"), Raw("("),
             Ident("items"), Raw("."), Ident("stock"), Raw("="), Bound(Int(0)), Raw("OR"),
             Ident("items"), Raw("."), Ident("price"), Raw("<="), Bound(Int(5)), Raw(")")]
  {
    hide InlineCond, Ungrouped, Members, GroupOrder, InlineGroup, InlineFilters;
    SamplePartition();
    SampleConds(d);
    PairGroup(AS_IT_IS, ITEMS, NONE_LEFT, CHEAP, d);
    PairInline(AS_IT_IS, ITEMS, [Some(NONE_LEFT), Some(DEAR), Some(CHEAP)], DEAR, 2, d);
  }

  /** price gt 100, and in one OR group stock eq 0 by its JSON name and price lte 5: the
      clause with its arguments in place, token by token, on either driver. */
  method BuildSampleClause(d: Driver) returns (t: Text, args: seq<GoValue>)
    ensures Resolve(t, args, 0) ==
            [Ident("items"), Raw("."), Ident("price"), Raw(">"), Bound(Int(100)), Raw("AND"), Raw("("),
             Ident("items"), Raw("."), Ident("stock"), Raw("="), Bound(Int(0)), Raw("OR"),
             Ident("items"), Raw("."), Ident("price"), Raw("<="), Bound(Int(5)), Raw(")")]
  {
    hide InlineFilters, TotalSurplus, Resolve, Covers, Within, Ranged, Lined;
    var p := new Binder(d);
    t := BuildFilterSQL(AS_IT_IS, ITEMS, [Some(NONE_LEFT), Some(DEAR), Some(CHEAP)], p);
    args := p.args;
    SampleInline(d);
  }
}
