/** SQL text as the builders produce it: fixed fragments, quoted identifiers and
    placeholders, and the binder that appends one argument per placeholder. */
module SqlText {
  import opened Wrappers

  datatype Driver = Postgres | SQLite

  /** A Go value bound to a statement or carried by a filter. */
  datatype GoValue = Nil | Str(s: string) | Int(n: int) | Float(r: real) | Bool(b: bool) | Time(t: int) | List(vs: seq<GoValue>)

  /** Numbered is "$N". Positional is "?", and remembers, though the text does not
      show it, which argument it was written for. Bound is not text the builders
      write: it stands where a placeholder was once the statement's arguments have
      been put in. Unbound marks a placeholder that names no argument. */
  datatype Token = Raw(s: string) | Ident(name: string) | Positional(n: nat) | Numbered(n: nat) | Bound(v: GoValue) | Unbound

  type Text = seq<Token>

  // ---- binding ------------------------------------------------------------------

  /** The number of "?" in a text. */
  function Holes(ts: Text): nat {
    if ts == [] then 0 else (if ts[0].Positional? then 1 else 0) + Holes(ts[1..])
  }

  /** One token with its argument in place, k "?" standing before it. */
  function Put(t: Token, args: seq<GoValue>, k: nat): Token {
    match t
    case Positional(_) => if k < |args| then Bound(args[k]) else Unbound
    case Numbered(n) => if 1 <= n <= |args| then Bound(args[n - 1]) else Unbound
    case _ => t
  }

  /** The statement with its arguments in place: the k-th "?" takes the k-th
      argument, "$N" the N-th. */
  function Resolve(ts: Text, args: seq<GoValue>, k: nat): Text {
    if ts == [] then []
    else [Put(ts[0], args, k)] + Resolve(ts[1..], args, k + if ts[0].Positional? then 1 else 0)
  }

  /** Every placeholder of the text names one of the first n arguments. */
  predicate InScope(ts: Text, k: nat, n: nat) {
    k + Holes(ts) <= n && forall t | t in ts :: t.Numbered? ==> 1 <= t.n <= n
  }

  lemma {:induction false} HolesConcat(a: Text, b: Text)
    ensures Holes(a + b) == Holes(a) + Holes(b)
  {
    if a == [] {
      assert a + b == b;
    } else {
      assert (a + b)[1..] == a[1..] + b;
      HolesConcat(a[1..], b);
    }
  }

  lemma {:induction false} ResolveConcat(a: Text, b: Text, args: seq<GoValue>, k: nat)
    ensures Resolve(a + b, args, k) == Resolve(a, args, k) + Resolve(b, args, k + Holes(a))
  {
    hide Put;
    if a == [] {
      assert a + b == b;
    } else {
      var l := k + if a[0].Positional? then 1 else 0;
      assert (a + b)[1..] == a[1..] + b;
      ResolveConcat(a[1..], b, args, l);
      assert [Put(a[0], args, k)] + (Resolve(a[1..], args, l) + Resolve(b, args, k + Holes(a)))
             == Resolve(a, args, k) + Resolve(b, args, k + Holes(a));
    }
  }

  lemma {:induction false} ResolveMoreArgs(a: Text, args: seq<GoValue>, more: seq<GoValue>, k: nat)
    requires InScope(a, k, |args|)
    ensures Resolve(a, args + more, k) == Resolve(a, args, k)
  {
    if a != [] {
      assert a[0] in a;
      ResolveMoreArgs(a[1..], args, more, k + if a[0].Positional? then 1 else 0);
    }
  }

  lemma {:induction false} ResolveIgnoresStart(a: Text, args: seq<GoValue>, k: nat, l: nat)
    requires Holes(a) == 0
    ensures Resolve(a, args, k) == Resolve(a, args, l)
  {
    if a != [] { ResolveIgnoresStart(a[1..], args, k, l); }
  }

  // ---- alignment --------------------------------------------------------------------

  /** The first "?" was written for argument k + 1, the next for k + 2, and so on. */
  predicate Numbering(ts: Text, k: nat) {
    if ts == [] then true
    else if ts[0].Positional? then ts[0].n == k + 1 && Numbering(ts[1..], k + 1)
    else Numbering(ts[1..], k)
  }

  /** Every "?" was written for one of the arguments after the first a and up to
      the first b. */
  predicate Ranged(ts: Text, a: nat, b: nat) {
    forall t | t in ts :: t.Positional? ==> a < t.n <= b
  }

  /** Written after the first a arguments, the text has one "?" for each of the
      following up to b, in their order: each takes the argument it stands for. */
  predicate Lined(ts: Text, a: nat, b: nat) {
    Holes(ts) == b - a && Numbering(ts, a)
  }

  /** The argument the i-th "?" was written for. */
  function WrittenFor(ts: Text, i: nat): nat
    requires i < Holes(ts)
  {
    if !ts[0].Positional? then WrittenFor(ts[1..], i) else if i == 0 then ts[0].n else WrittenFor(ts[1..], i - 1)
  }

  ghost predicate InTurn(ts: Text, k: nat) {
    forall i :: 0 <= i < Holes(ts) ==> WrittenFor(ts, i) == k + 1 + i
  }

  /** One by one. */
  lemma {:induction false} NumberingByHole(ts: Text, k: nat)
    ensures Numbering(ts, k) <==> InTurn(ts, k)
  {
    if ts != [] {
      var rest, first := ts[1..], if ts[0].Positional? then 1 else 0;
      NumberingByHole(rest, k + first);
      if InTurn(ts, k) {
        forall i | 0 <= i < Holes(rest) ensures WrittenFor(rest, i) == k + first + 1 + i {
          assert WrittenFor(ts, i + first) == WrittenFor(rest, i);
        }
        if first == 1 { assert WrittenFor(ts, 0) == ts[0].n; }
      }
      if Numbering(ts, k) {
        forall i | 0 <= i < Holes(ts) ensures WrittenFor(ts, i) == k + 1 + i {
          if first <= i { assert WrittenFor(ts, i) == WrittenFor(rest, i - first); }
        }
      }
    }
  }

  lemma {:induction false} NumberingConcat(a: Text, b: Text, k: nat)
    ensures Numbering(a + b, k) <==> Numbering(a, k) && Numbering(b, k + Holes(a))
  {
    if a == [] {
      assert a + b == b;
    } else {
      assert (a + b)[1..] == a[1..] + b;
      NumberingConcat(a[1..], b, k + if a[0].Positional? then 1 else 0);
    }
  }

  lemma {:induction false} NumberedFrom(ts: Text, k: nat)
    requires Numbering(ts, k)
    ensures Ranged(ts, k, k + Holes(ts))
  {
    if ts != [] {
      assert ts == [ts[0]] + ts[1..];
      NumberedFrom(ts[1..], k + if ts[0].Positional? then 1 else 0);
    }
  }

  /** A numbered text inside a range has no more "?" than the range has arguments. */
  lemma {:induction false} NumberingFits(ts: Text, k: nat, b: nat)
    requires Numbering(ts, k) && Ranged(ts, 0, b) && k <= b
    ensures k + Holes(ts) <= b
  {
    if ts != [] {
      assert ts[0] in ts && forall t :: t in ts[1..] ==> t in ts;
      NumberingFits(ts[1..], k + if ts[0].Positional? then 1 else 0, b);
    }
  }

  lemma {:induction false} NumberingStarts(ts: Text, k: nat, a: nat, b: nat)
    requires Numbering(ts, k) && Ranged(ts, a, b) && Holes(ts) > 0
    ensures a <= k < b
  {
    assert ts[0] in ts && forall t :: t in ts[1..] ==> t in ts;
    if !ts[0].Positional? { NumberingStarts(ts[1..], k, a, b); }
  }

  /** Texts written one after the other line up together exactly when each does. */
  lemma LinedConcat(s: Text, t: Text, a: nat, b: nat, c: nat)
    requires a <= b <= c && Ranged(s, a, b) && Ranged(t, b, c)
    ensures Ranged(s + t, a, c)
    ensures Lined(s + t, a, c) <==> Lined(s, a, b) && Lined(t, b, c)
  {
    HolesConcat(s, t);
    NumberingConcat(s, t, a);
    if Lined(s + t, a, c) {
      NumberingFits(s, a, b);
      if Holes(t) > 0 { NumberingStarts(t, a + Holes(s), b, c); }
    }
  }

  // ---- numbered placeholders ----------------------------------------------------------

  /** Every "$N" names one of the arguments after the first a and up to the first b. */
  predicate Within(ts: Text, a: nat, b: nat) {
    forall t | t in ts :: t.Numbered? ==> a < t.n <= b
  }

  /** Each of those arguments is named by some "$N". */
  ghost predicate Covers(ts: Text, a: nat, b: nat) {
    forall n: nat :: a < n <= b ==> Numbered(n) in ts
  }

  /** Texts written one after the other name all their arguments exactly when each
      does. */
  lemma CoversConcat(s: Text, t: Text, a: nat, b: nat, c: nat)
    requires a <= b <= c && Within(s, a, b) && Within(t, b, c)
    ensures Within(s + t, a, c)
    ensures Covers(s + t, a, c) <==> Covers(s, a, b) && Covers(t, b, c)
  {
    if Covers(s + t, a, c) {
      forall n: nat | a < n <= b ensures Numbered(n) in s { assert Numbered(n) in s + t && Numbered(n) !in t; }
      forall n: nat | b < n <= c ensures Numbered(n) in t { assert Numbered(n) in s + t && Numbered(n) !in s; }
    }
  }

  // ---- rendering ------------------------------------------------------------------

  predicate NoHoles(ts: Text) {
    forall t | t in ts :: t.Raw? || t.Ident? || t.Bound?
  }

  /** The text a renderer produced while the argument list grew from before to
      after means inline, whatever is appended later. */
  ghost predicate Means(d: Driver, before: seq<GoValue>, after: seq<GoValue>, ts: Text, inline: Text) {
    && before <= after
    && InScope(ts, |before|, |after|)
    && Holes(ts) == (if d.SQLite? then |after| - |before| else 0)
    && (d.SQLite? ==> Numbering(ts, |before|))
    && Resolve(ts, after, |before|) == inline
  }

  /** And no argument is left over: on SQLite each "?" has taken its own, on Postgres
      each is named, and none bound before is. */
  ghost predicate Renders(d: Driver, before: seq<GoValue>, after: seq<GoValue>, ts: Text, inline: Text) {
    && Means(d, before, after, ts, inline)
    && (d.Postgres? ==> Within(ts, |before|, |after|) && Covers(ts, |before|, |after|))
  }

  lemma {:induction false} PlainResolved(t: Text, args: seq<GoValue>, k: nat)
    requires forall x :: x in Resolve(t, args, k) ==> x.Raw? || x.Ident?
    ensures Resolve(t, args, k) == t
  {
    if t != [] {
      var next := k + if t[0].Positional? then 1 else 0;
      assert Resolve(t, args, k) == [Put(t[0], args, k)] + Resolve(t[1..], args, next);
      assert Put(t[0], args, k) in Resolve(t, args, k);
      PlainResolved(t[1..], args, next);
    }
  }

  /** Text that stands for text without values is that text. */
  lemma PlainMeans(d: Driver, args: seq<GoValue>, t: Text, inline: Text)
    requires Means(d, [], args, t, inline) && forall x :: x in inline ==> x.Raw? || x.Ident?
    ensures t == inline
  {
    PlainResolved(t, args, 0);
  }

  lemma {:induction false} PlainRenders(d: Driver, args: seq<GoValue>, ts: Text)
    requires NoHoles(ts)
    ensures Renders(d, args, args, ts, ts)
  {
    if ts != [] {
      assert ts[0] in ts;
      PlainRenders(d, args, ts[1..]);
    }
  }

  lemma MeansConcat(d: Driver, a: seq<GoValue>, b: seq<GoValue>, c: seq<GoValue>, s: Text, s': Text, t: Text, t': Text)
    requires Means(d, a, b, s, s') && Means(d, b, c, t, t')
    ensures Means(d, a, c, s + t, s' + t')
  {
    HolesConcat(s, t);
    NumberingConcat(s, t, |a|);
    ResolveConcat(s, t, c, |a|);
    assert c == b + c[|b|..];
    ResolveMoreArgs(s, b, c[|b|..], |a|);
    if d.Postgres? { ResolveIgnoresStart(t, c, |a| + Holes(s), |b|); }
  }

  lemma RendersConcat(d: Driver, a: seq<GoValue>, b: seq<GoValue>, c: seq<GoValue>, s: Text, s': Text, t: Text, t': Text)
    requires Renders(d, a, b, s, s') && Renders(d, b, c, t, t')
    ensures Renders(d, a, c, s + t, s' + t')
  {
    hide Within, Covers;
    MeansConcat(d, a, b, c, s, s', t, t');
    if d.Postgres? { CoversConcat(s, t, |a|, |b|, |c|); }
  }

  /** Text that carries no "?" may be written again later in the statement. */
  lemma RendersAgain(d: Driver, a: seq<GoValue>, b: seq<GoValue>, c: seq<GoValue>, s: Text, s': Text)
    requires Means(d, a, b, s, s') && b <= c && Holes(s) == 0
    ensures Means(d, c, c, s, s')
  {
    assert c == b + c[|b|..];
    ResolveMoreArgs(s, b, c[|b|..], |a|);
    ResolveIgnoresStart(s, c, |a|, |c|);
    NoHolesNumber(s, |c|);
  }

  /** So written, it adds no argument and leaves none over. */
  lemma RepeatRenders(d: Driver, a: seq<GoValue>, b: seq<GoValue>, c: seq<GoValue>, head: Text, head': Text, s: Text, s': Text)
    requires Renders(d, a, b, s, s') && Renders(d, a, c, head, head') && b <= c && Holes(s) == 0
    ensures Renders(d, a, c, head + s, head' + s')
  {
    RendersAgain(d, a, b, c, s, s');
    MeansConcat(d, a, c, c, head, head', s, s');
  }

  lemma {:induction false} NoHolesNumber(ts: Text, k: nat)
    requires Holes(ts) == 0
    ensures Numbering(ts, k)
  {
    if ts != [] { NoHolesNumber(ts[1..], k); }
  }

  /** A rendered text lines up. */
  lemma RendersLined(d: Driver, a: seq<GoValue>, b: seq<GoValue>, ts: Text, inline: Text)
    requires Means(d, a, b, ts, inline) && d.SQLite?
    ensures Lined(ts, |a|, |b|) && Ranged(ts, |a|, |b|)
  {
    NumberedFrom(ts, |a|);
  }

  /** Collects a statement's arguments. */
  class Binder {
    const driver: Driver
    var args: seq<GoValue>

    constructor (driver: Driver)
      ensures this.driver == driver && args == []
    {
      this.driver, args := driver, [];
    }

    method Add(v: GoValue) returns (ph: Text)
      modifies this
      ensures args == old(args) + [v]
      ensures Renders(driver, old(args), args, ph, [Bound(v)])
      ensures Holes(ph) == if driver.SQLite? then 1 else 0
    {
      args := args + [v];
      ph := if driver == Postgres then [Numbered(|args|)] else [Positional(|args|)];
    }
  }

  // ---- joining --------------------------------------------------------------------

  function Join(parts: seq<Text>, sep: Text): Text {
    if parts == [] then []
    else if |parts| == 1 then parts[0]
    else Join(parts[..|parts| - 1], sep) + sep + parts[|parts| - 1]
  }

  lemma JoinSnoc(parts: seq<Text>, sep: Text, t: Text)
    ensures Join(parts + [t], sep) == if parts == [] then t else Join(parts, sep) + sep + t
  {
    assert (parts + [t])[..|parts|] == parts;
  }

  lemma {:induction false} JoinCons(parts: seq<Text>, sep: Text)
    requires |parts| >= 2
    ensures Join(parts, sep) == parts[0] + sep + Join(parts[1..], sep)
    decreases |parts|
  {
    var n := |parts|;
    if n > 2 {
      JoinCons(parts[..n - 1], sep);
      assert parts[..n - 1][1..] == parts[1..][..n - 2];
      assert parts[1..][n - 2] == parts[n - 1];
    }
  }

  lemma RendersJoin(d: Driver, a: seq<GoValue>, b: seq<GoValue>, c: seq<GoValue>, parts: seq<Text>, inlines: seq<Text>, sep: Text, t: Text, t': Text)
    requires |parts| == |inlines| && NoHoles(sep)
    requires Renders(d, a, b, Join(parts, sep), Join(inlines, sep)) && Renders(d, b, c, t, t')
    ensures Renders(d, a, c, Join(parts + [t], sep), Join(inlines + [t'], sep))
  {
    JoinSnoc(parts, sep, t);
    JoinSnoc(inlines, sep, t');
    if parts == [] {
      EmptyRenders(d, a, b);
      RendersConcat(d, a, b, c, [], [], t, t');
      assert [] + t == t && [] + t' == t';
    } else {
      PlainRenders(d, b, sep);
      RendersConcat(d, a, b, b, Join(parts, sep), Join(inlines, sep), sep, sep);
      RendersConcat(d, a, b, c, Join(parts, sep) + sep, Join(inlines, sep) + sep, t, t');
    }
  }

  lemma EmptyRenders(d: Driver, a: seq<GoValue>, b: seq<GoValue>)
    requires Renders(d, a, b, [], [])
    ensures d.SQLite? ==> a == b
  {
  }

  // ---- identifiers ------------------------------------------------------------------

  /** strings.ReplaceAll for a one-character pattern. */
  function ReplaceAll(s: string, c: char, with: string): string {
    if s == "" then "" else (if s[0] == c then with else [s[0]]) + ReplaceAll(s[1..], c, with)
  }

  function Quote(id: string): string {
    "\"" + ReplaceAll(id, '"', "\"\"") + "\""
  }

  /** Reads a quoted identifier's inside up to its closing quote, undoubling the
      quotes in it: the identifier and what follows it. */
  function LexInside(s: string): Option<(string, string)> {
    if s == "" then None
    else if s[0] == '"' then
      if |s| > 1 && s[1] == '"' then
        match LexInside(s[2..]) case None => None case Some(r) => Some(("\"" + r.0, r.1))
      else Some(("", s[1..]))
    else match LexInside(s[1..]) case None => None case Some(r) => Some(([s[0]] + r.0, r.1))
  }

  /** A quoted identifier reads back as exactly the identifier that was quoted. */
  lemma {:induction false} QuoteLexes(id: string, rest: string)
    requires rest == "" || rest[0] != '"'
    ensures Quote(id)[0] == '"' && LexInside(Quote(id)[1..] + rest) == Some((id, rest))
  {
    InsideLexes(id, rest);
    assert Quote(id)[1..] + rest == ReplaceAll(id, '"', "\"\"") + ("\"" + rest);
  }

  lemma {:induction false} InsideLexes(id: string, rest: string)
    requires rest == "" || rest[0] != '"'
    ensures LexInside(ReplaceAll(id, '"', "\"\"") + ("\"" + rest)) == Some((id, rest))
  {
    var tail := "\"" + rest;
    if id == "" {
      assert ReplaceAll(id, '"', "\"\"") + tail == tail;
      assert tail[1..] == rest;
    } else {
      InsideLexes(id[1..], rest);
      var head := if id[0] == '"' then "\"\"" else [id[0]];
      var inner := ReplaceAll(id[1..], '"', "\"\"") + tail;
      assert ReplaceAll(id, '"', "\"\"") + tail == head + inner;
      if id[0] == '"' {
        assert (head + inner)[2..] == inner;
      } else {
        assert (head + inner)[1..] == inner;
      }
      assert id == [id[0]] + id[1..];
    }
  }

  /** The "?" a driver sees: those outside quoted identifiers. */
  function QuestionMarks(s: string, quoted: bool): nat {
    if s == "" then 0
    else if s[0] == '"' then QuestionMarks(s[1..], !quoted)
    else (if s[0] == '?' && !quoted then 1 else 0) + QuestionMarks(s[1..], quoted)
  }

  /** The characters of a text. */
  function Show(ts: Text): string {
    if ts == [] then "" else ShowToken(ts[0]) + Show(ts[1..])
  }

  /** strconv.Itoa */
  function Itoa(n: nat): string {
    if n < 10 then [['0', '1', '2', '3', '4', '5', '6', '7', '8', '9'][n]] else Itoa(n / 10) + Itoa(n % 10)
  }

  lemma {:induction false} ItoaPlain(n: nat)
    ensures '"' !in Itoa(n) && '?' !in Itoa(n)
  {
    if n >= 10 {
      ItoaPlain(n / 10);
      ItoaPlain(n % 10);
    }
  }

  /** The number a string of decimal digits stands for. */
  function ReadDecimal(s: string): Option<nat> {
    if s == "" || !('0' <= s[|s| - 1] <= '9') then None
    else
      var d: nat := s[|s| - 1] as int - '0' as int;
      if |s| == 1 then Some(d)
      else match ReadDecimal(s[..|s| - 1]) case None => None case Some(n) => Some(10 * n + d)
  }

  lemma OneMoreDigit(s: string, d: nat)
    requires ReadDecimal(s).Some? && d < 10
    ensures Itoa(d) == [('0' as int + d) as char] && ReadDecimal(s + Itoa(d)) == Some(10 * ReadDecimal(s).value + d)
  {
    assert (s + Itoa(d))[..|s|] == s && (s + Itoa(d))[|s|] == Itoa(d)[0];
  }

  /** A number is written in decimal digits with no zero in front. */
  lemma {:induction false} ItoaReads(n: nat)
    ensures Itoa(n) != "" && ReadDecimal(Itoa(n)) == Some(n)
    ensures n > 0 ==> Itoa(n)[0] != '0'
  {
    if n >= 10 {
      hide ReadDecimal;
      ItoaReads(n / 10);
      OneMoreDigit(Itoa(n / 10), n % 10);
      assert Itoa(n) == Itoa(n / 10) + Itoa(n % 10);
    }
  }

  function ShowToken(t: Token): string {
    match t
    case Raw(s) => s + " "
    case Ident(name) => Quote(name)
    case Positional(_) => "?"
    case Numbered(n) => "$" + Itoa(n)
    case Bound(_) => ""
    case Unbound => ""
  }

  /** A placeholder is shown as "?", or as "$" and the decimal number of its argument. */
  lemma PlaceholderShown(n: nat)
    ensures ShowToken(Positional(n)) == "?"
    ensures var s := ShowToken(Numbered(n)); |s| > 1 && s[0] == '$' && ReadDecimal(s[1..]) == Some(n)
  {
    ItoaReads(n);
    assert ("$" + Itoa(n))[1..] == Itoa(n);
  }

  lemma {:induction false} QuestionMarksConcat(a: string, b: string, quoted: bool)
    ensures QuestionMarks(a + b, quoted) == QuestionMarks(a, quoted) + QuestionMarks(b, if Quotes(a) % 2 == 0 then quoted else !quoted)
  {
    if a == "" {
      assert a + b == b;
    } else {
      assert (a + b)[1..] == a[1..] + b;
      QuestionMarksConcat(a[1..], b, if a[0] == '"' then !quoted else quoted);
    }
  }

  function Quotes(s: string): nat {
    if s == "" then 0 else (if s[0] == '"' then 1 else 0) + Quotes(s[1..])
  }

  lemma {:induction false} InsideCounts(id: string)
    ensures QuestionMarks(ReplaceAll(id, '"', "\"\""), true) == 0
    ensures Quotes(ReplaceAll(id, '"', "\"\"")) % 2 == 0
  {
    if id != "" {
      InsideCounts(id[1..]);
      var head, tail := if id[0] == '"' then "\"\"" else [id[0]], ReplaceAll(id[1..], '"', "\"\"");
      assert ReplaceAll(id, '"', "\"\"") == head + tail;
      if id[0] == '"' {
        assert (head + tail)[1..] == "\"" + tail && (head + tail)[1..][1..] == tail;
      } else {
        assert (head + tail)[1..] == tail;
      }
    }
  }

  lemma QuoteCounts(id: string)
    ensures QuestionMarks(Quote(id), false) == 0 && Quotes(Quote(id)) % 2 == 0
  {
    var inside := ReplaceAll(id, '"', "\"\"");
    InsideCounts(id);
    assert Quote(id) == "\"" + (inside + "\"") && Quote(id)[1..] == inside + "\"";
    QuestionMarksConcat(inside, "\"", true);
    QuotesConcat(inside, "\"");
    assert Quotes("\"") == 1 && QuestionMarks("\"", true) == 0;
  }

  lemma {:induction false} QuotesConcat(a: string, b: string)
    ensures Quotes(a + b) == Quotes(a) + Quotes(b)
  {
    if a == "" {
      assert a + b == b;
    } else {
      assert (a + b)[1..] == a[1..] + b;
      QuotesConcat(a[1..], b);
    }
  }

  /** Fixed fragments hold neither a quote nor a "?". */
  predicate PlainFragments(ts: Text) {
    forall t | t in ts :: t.Raw? ==> PlainString(t.s)
  }

  predicate PlainString(s: string) {
    '"' !in s && '?' !in s
  }

  lemma {:induction false} PlainStringCounts(s: string, quoted: bool)
    requires PlainString(s)
    ensures QuestionMarks(s, quoted) == 0 && Quotes(s) == 0
  {
    if s != "" { PlainStringCounts(s[1..], quoted); }
  }

  /** The "?" a driver counts in the characters are exactly the placeholders the
      builder wrote, whatever the identifiers contain. */
  lemma {:induction false} HolesAreTheQuestionMarks(ts: Text)
    requires PlainFragments(ts)
    ensures QuestionMarks(Show(ts), false) == Holes(ts)
  {
    if ts != [] {
      assert ts[0] in ts;
      HolesAreTheQuestionMarks(ts[1..]);
      var head := ShowToken(ts[0]);
      QuestionMarksConcat(head, Show(ts[1..]), false);
      match ts[0]
      case Raw(s) => PlainStringCounts(s + " ", false);
      case Ident(name) => QuoteCounts(name);
      case Numbered(n) =>
        ItoaPlain(n);
        PlainStringCounts("$" + Itoa(n), false);
      case _ =>
    }
  }
}
