/** Numbers in aggregate rows: the scan that recognises a JSON number, the grammar of
    RFC 8259 section 6 it answers to, and the rewriting of a driver's text. */
module JsonNumber {
  import opened Wrappers

  type Byte = x: int | 0 <= x < 256

  const MINUS: Byte := 45
  const PLUS: Byte := 43
  const DOT: Byte := 46
  const ZERO: Byte := 48
  const NINE: Byte := 57
  const LOWER_E: Byte := 101
  const UPPER_E: Byte := 69

  // ---- the grammar -----------------------------------------------------------------
  //   number = [ minus ] int [ frac ] [ exp ]

  predicate IsDigit(b: Byte) {
    ZERO <= b <= NINE
  }

  /** 1*DIGIT */
  predicate Digits(s: seq<Byte>) {
    s != [] && forall i :: 0 <= i < |s| ==> IsDigit(s[i])
  }

  /** int = zero / ( digit1-9 *DIGIT ) */
  predicate IntPart(s: seq<Byte>) {
    Digits(s) && (s[0] == ZERO ==> |s| == 1)
  }

  /** frac = decimal-point 1*DIGIT */
  predicate Frac(s: seq<Byte>) {
    s != [] && s[0] == DOT && Digits(s[1..])
  }

  /** exp = e [ minus / plus ] 1*DIGIT */
  predicate Exp(s: seq<Byte>) {
    && s != [] && (s[0] == LOWER_E || s[0] == UPPER_E)
    && (Digits(s[1..]) || (|s| > 1 && (s[1] == MINUS || s[1] == PLUS) && Digits(s[2..])))
  }

  /** A way to cut a byte string into the parts of a number; an absent part is empty. */
  ghost predicate Derives(sign: seq<Byte>, int_: seq<Byte>, frac: seq<Byte>, exp: seq<Byte>) {
    && (sign == [] || sign == [MINUS])
    && IntPart(int_)
    && (frac == [] || Frac(frac))
    && (exp == [] || Exp(exp))
  }

  ghost predicate IsNumber(s: seq<Byte>) {
    exists sign, int_, frac, exp :: Derives(sign, int_, frac, exp) && s == sign + int_ + frac + exp
  }

  // ---- the deterministic reading -------------------------------------------------------

  /** How many digits a string starts with. */
  function Run(s: seq<Byte>): (n: nat)
    ensures n <= |s|
    ensures forall i :: 0 <= i < n ==> IsDigit(s[i])
    ensures n < |s| ==> !IsDigit(s[n])
  {
    if s != [] && IsDigit(s[0]) then 1 + Run(s[1..]) else 0
  }

  lemma {:induction false} RunOf(ds: seq<Byte>, rest: seq<Byte>)
    requires forall i :: 0 <= i < |ds| ==> IsDigit(ds[i])
    requires rest != [] ==> !IsDigit(rest[0])
    ensures Run(ds + rest) == |ds|
  {
    if ds == [] {
      assert ds + rest == rest;
    } else {
      assert (ds + rest)[1..] == ds[1..] + rest;
      RunOf(ds[1..], rest);
    }
  }

  /** What may remain after the fraction. */
  predicate ExpTail(s: seq<Byte>) {
    s == [] || Exp(s)
  }

  /** What may remain after the integer part. */
  predicate FracTail(s: seq<Byte>) {
    if s != [] && s[0] == DOT then Run(s[1..]) > 0 && ExpTail(s[1 + Run(s[1..])..]) else ExpTail(s)
  }

  predicate UnsignedNumber(s: seq<Byte>) {
    s != [] && IsDigit(s[0]) && FracTail(s[if s[0] == ZERO then 1 else Run(s)..])
  }

  predicate Reads(s: seq<Byte>) {
    UnsignedNumber(if s != [] && s[0] == MINUS then s[1..] else s)
  }

  lemma ExpIsRun(s: seq<Byte>)
    requires s != [] && (s[0] == LOWER_E || s[0] == UPPER_E)
    ensures Exp(s) <==> var k := if |s| > 1 && (s[1] == MINUS || s[1] == PLUS) then 2 else 1; Run(s[k..]) > 0 && k + Run(s[k..]) == |s|
  {
    var k := if |s| > 1 && (s[1] == MINUS || s[1] == PLUS) then 2 else 1;
    if Digits(s[k..]) {
      RunOf(s[k..], []);
      assert s[k..] + [] == s[k..];
    }
    if k == 2 { assert s[1..][0] == s[1]; }
  }

  /** The one reading accepts exactly what the grammar derives. */
  lemma ReadsIffDerives(s: seq<Byte>)
    ensures Reads(s) <==> IsNumber(s)
  {
    if Reads(s) { ReadsDerives(s); }
    if IsNumber(s) {
      var sign, int_, frac, exp :| Derives(sign, int_, frac, exp) && s == sign + int_ + frac + exp;
      DerivedReads(sign, int_, frac, exp);
    }
  }

  lemma TailSplits(t: seq<Byte>) returns (frac: seq<Byte>, exp: seq<Byte>)
    requires FracTail(t)
    ensures t == frac + exp && (frac == [] || Frac(frac)) && (exp == [] || Exp(exp))
  {
    hide Exp;
    var m := if t != [] && t[0] == DOT then 1 + Run(t[1..]) else 0;
    frac, exp := t[..m], t[m..];
    if m > 0 { assert frac[1..] == t[1..][..m - 1]; }
  }

  lemma TailJoins(frac: seq<Byte>, exp: seq<Byte>)
    requires (frac == [] || Frac(frac)) && (exp == [] || Exp(exp))
    ensures FracTail(frac + exp)
    ensures frac + exp != [] ==> !IsDigit((frac + exp)[0])
  {
    var t := frac + exp;
    if frac != [] {
      RunOf(frac[1..], exp);
      assert t[1..] == frac[1..] + exp;
      assert t[1 + Run(t[1..])..] == exp;
    } else {
      assert t == exp;
    }
  }

  lemma UnsignedSplits(u: seq<Byte>) returns (int_: seq<Byte>, frac: seq<Byte>, exp: seq<Byte>)
    requires UnsignedNumber(u)
    ensures Derives([], int_, frac, exp) && u == int_ + (frac + exp)
  {
    hide Exp, Frac, FracTail;
    var n := if u[0] == ZERO then 1 else Run(u);
    int_ := u[..n];
    frac, exp := TailSplits(u[n..]);
    assert u == u[..n] + u[n..];
    assert IntPart(int_);
  }

  lemma ReadsDerives(s: seq<Byte>)
    requires Reads(s)
    ensures IsNumber(s)
  {
    hide Exp, Frac, IntPart, UnsignedNumber;
    var sign: seq<Byte> := if s != [] && s[0] == MINUS then [MINUS] else [];
    var u := s[|sign|..];
    var int_, frac, exp := UnsignedSplits(u);
    assert Derives(sign, int_, frac, exp);
    assert sign + int_ + frac + exp == sign + (int_ + (frac + exp));
    assert s == sign + u;
  }

  lemma DerivedReads(sign: seq<Byte>, int_: seq<Byte>, frac: seq<Byte>, exp: seq<Byte>)
    requires Derives(sign, int_, frac, exp)
    ensures Reads(sign + int_ + frac + exp)
  {
    hide Exp, Frac, FracTail;
    var s := sign + int_ + frac + exp;
    var t := frac + exp;
    var u := int_ + t;
    TailJoins(frac, exp);
    assert s == sign + u && u[0] == int_[0];
    RunOf(int_, t);
    assert u[|int_|..] == t;
    assert UnsignedNumber(u);
    if sign == [] { assert s == u; } else { assert s[1..] == u; }
  }

  // ---- the scan ----------------------------------------------------------------------------

  method SkipDigits(s: seq<Byte>, start: nat) returns (i: nat)
    requires start <= |s|
    ensures i == start + Run(s[start..])
  {
    i := start;
    while i < |s| && IsDigit(s[i])
      invariant start <= i <= |s| && i + Run(s[i..]) == start + Run(s[start..])
    {
      assert s[i..][1..] == s[i + 1..];
      i := i + 1;
    }
  }

  lemma SignStage(s: seq<Byte>, i: nat)
    requires i == if s != [] && s[0] == MINUS then 1 else 0
    ensures Reads(s) <==> UnsignedNumber(s[i..])
    ensures UnsignedNumber(s[i..]) ==> i < |s| && IsDigit(s[i])
  {
    hide FracTail;
    assert s[0..] == s;
  }

  lemma IntStage(s: seq<Byte>, i: nat, j: nat)
    requires i < |s| && IsDigit(s[i]) && j == i + if s[i] == ZERO then 1 else Run(s[i..])
    ensures j <= |s| && (UnsignedNumber(s[i..]) <==> FracTail(s[j..]))
  {
    hide FracTail;
    assert s[i..][j - i..] == s[j..];
  }

  lemma FracStage(s: seq<Byte>, i: nat, j: nat)
    requires i < |s| && s[i] == DOT && j == i + 1 + Run(s[i + 1..])
    ensures j <= |s| && (FracTail(s[i..]) <==> j > i + 1 && ExpTail(s[j..]))
  {
    hide ExpTail;
    assert s[i..][1..] == s[i + 1..] && s[i..][j - i..] == s[j..];
  }

  lemma ExpStage(s: seq<Byte>, i: nat, k: nat, j: nat)
    requires i < |s| && (s[i] == LOWER_E || s[i] == UPPER_E)
    requires k == (if i + 1 < |s| && (s[i + 1] == MINUS || s[i + 1] == PLUS) then i + 2 else i + 1) && j == k + Run(s[k..])
    ensures ExpTail(s[i..]) <==> j > k && j == |s|
  {
    hide Exp;
    ExpIsRun(s[i..]);
    assert s[i..][k - i..] == s[k..];
  }

  lemma NoFraction(s: seq<Byte>, i: nat)
    requires i <= |s| && !(i < |s| && s[i] == DOT)
    ensures FracTail(s[i..]) <==> ExpTail(s[i..])
  {
  }

  lemma NoExponent(s: seq<Byte>, i: nat)
    requires i <= |s| && !(i < |s| && (s[i] == LOWER_E || s[i] == UPPER_E))
    ensures ExpTail(s[i..]) <==> i == |s|
  {
  }

  /** Accepts a byte string exactly when it is a number of RFC 8259. */
  method IsJSONNumber(s: seq<Byte>) returns (ok: bool)
    ensures ok <==> IsNumber(s)
  {
    hide IsNumber, FracTail, ExpTail, Reads, UnsignedNumber, Run;
    ReadsIffDerives(s);
    var i := 0;
    if i < |s| && s[i] == MINUS { i := i + 1; }
    SignStage(s, i);
    ghost var first := i;
    if i < |s| && s[i] == ZERO {
      i := i + 1;
    } else if i < |s| && ZERO < s[i] <= NINE {
      i := SkipDigits(s, i);
    } else {
      return false;
    }
    IntStage(s, first, i);
    if i < |s| && s[i] == DOT {
      ghost var dot := i;
      i := i + 1;
      var start := i;
      i := SkipDigits(s, i);
      FracStage(s, dot, i);
      if i == start { return false; }
    } else {
      NoFraction(s, i);
    }
    if i < |s| && (s[i] == LOWER_E || s[i] == UPPER_E) {
      ghost var e := i;
      i := i + 1;
      if i < |s| && (s[i] == PLUS || s[i] == MINUS) { i := i + 1; }
      var start := i;
      i := SkipDigits(s, i);
      ExpStage(s, e, start, i);
      if i == start { return false; }
    } else {
      NoExponent(s, i);
    }
    ok := i == |s|;
  }

  // ---- to the letter ---------------------------------------------------------------------------

  function Ascii(s: string): (bs: seq<Byte>)
    requires forall i :: 0 <= i < |s| ==> s[i] < '\U{80}'
  {
    seq(|s|, i requires 0 <= i < |s| => s[i] as int)
  }

  /** A sign, a fraction and a signed exponent make a number. */
  lemma NumberSamples()
    ensures IsNumber(Ascii("0")) && IsNumber(Ascii("-1.5e+3")) && IsNumber(Ascii("20E1"))
  {
    assert Ascii("0") == [] + Ascii("0") + [] + [];
    assert Derives([], Ascii("0"), [], []);
    assert Ascii("-1.5e+3") == Ascii("-") + Ascii("1") + Ascii(".5") + Ascii("e+3");
    assert Ascii(".5")[1..] == Ascii("5") && Ascii("e+3")[2..] == Ascii("3");
    assert Derives(Ascii("-"), Ascii("1"), Ascii(".5"), Ascii("e+3"));
    assert Ascii("20E1") == [] + Ascii("20") + [] + Ascii("E1") && Ascii("E1")[1..] == Ascii("1");
    assert Derives([], Ascii("20"), [], Ascii("E1"));
  }

  /** A blank, a leading zero, plus or point, and a point or exponent without digits do
      not. */
  lemma RefusedSamples()
    ensures !IsNumber(Ascii("")) && !IsNumber(Ascii("07")) && !IsNumber(Ascii("+1")) && !IsNumber(Ascii(".5"))
    ensures !IsNumber(Ascii("1.")) && !IsNumber(Ascii("1e"))
  {
    hide IsNumber, Reads, Ascii;
    LeadingRefused();
    TrailingRefused();
    ReadsIffDerives(Ascii(""));
    ReadsIffDerives(Ascii("07"));
    ReadsIffDerives(Ascii("+1"));
    ReadsIffDerives(Ascii(".5"));
    ReadsIffDerives(Ascii("1."));
    ReadsIffDerives(Ascii("1e"));
  }

  lemma LeadingRefused()
    ensures !Reads(Ascii("")) && !Reads(Ascii("07")) && !Reads(Ascii("+1")) && !Reads(Ascii(".5"))
  {
    assert Ascii("07")[1..] == Ascii("7");
  }

  lemma TrailingRefused()
    ensures !Reads(Ascii("1.")) && !Reads(Ascii("1e"))
  {
    assert Ascii("1.")[1..] == Ascii(".") && Ascii("1e")[1..] == Ascii("e");
    assert Run(Ascii(".")) == 0 && Run(Ascii("e")) == 0 && Ascii(".")[1..] == [] && Ascii("e")[1..] == [];
  }

  // ---- rows ----------------------------------------------------------------------------------

  /** A value as a driver hands it back; JsonNumber keeps the digits as they came. */
  datatype Cell = Null | Text(s: seq<Byte>) | Bytes(s: seq<Byte>) | Numeric(r: real) | JsonNumber(s: seq<Byte>)

  type Row = map<string, Cell>

  ghost function Normalized(c: Cell): Cell {
    if (c.Text? || c.Bytes?) && IsNumber(c.s) then JsonNumber(c.s) else c
  }

  ghost predicate NormalizedRow(before: Row, after: Row, numeric: set<string>) {
    && after.Keys == before.Keys
    && forall k :: k in before ==> after[k] == if k in numeric then Normalized(before[k]) else before[k]
  }

  method NormalizeCell(c: Cell) returns (r: Cell)
    ensures r == Normalized(c)
  {
    r := c;
    if c.Text? || c.Bytes? {
      var number := IsJSONNumber(c.s);
      if number { r := JsonNumber(c.s); }
    }
  }

  /** The aliases in any order. */
  method NormalizeRow(row: Row, numeric: set<string>) returns (r: Row)
    ensures NormalizedRow(row, r, numeric)
  {
    r := row;
    var left := numeric;
    while left != {}
      invariant left <= numeric && r.Keys == row.Keys
      invariant forall k :: k in row ==> r[k] == if k in numeric - left then Normalized(row[k]) else row[k]
      decreases |left|
    {
      var alias :| alias in left;
      left := left - {alias};
      if alias in r {
        var c := NormalizeCell(r[alias]);
        r := r[alias := c];
      }
    }
  }

  /** Rewrites the numeric columns of every row in place; other columns keep their
      text, and a text that is no JSON number stays text. */
  method NormalizeAggregateNumbers(rows: array<Row>, numeric: set<string>)
    modifies rows
    ensures forall i :: 0 <= i < rows.Length ==> NormalizedRow(old(rows[i]), rows[i], numeric)
  {
    var i := 0;
    while i < rows.Length
      invariant 0 <= i <= rows.Length
      invariant forall k :: 0 <= k < i ==> NormalizedRow(old(rows[k]), rows[k], numeric)
      invariant forall k :: i <= k < rows.Length ==> rows[k] == old(rows[k])
    {
      var row := NormalizeRow(rows[i], numeric);
      rows[i] := row;
      i := i + 1;
    }
  }
}
