/** LIKE: how a literal value is escaped into a pattern, and what a pattern matches. */
module LikePattern {
  import opened Wrappers
  import opened SqlText

  const ESC := '\\'

  /** LIKE matching: % is any run, _ any one character, the escape character (when
      there is one) takes the next character literally. A pattern that ends in its
      escape character matches nothing. */
  predicate Matches(p: string, s: string, esc: Option<char>)
    decreases |p| + |s|
  {
    if p == "" then s == ""
    else if esc == Some(p[0]) then |p| >= 2 && s != "" && s[0] == p[1] && Matches(p[2..], s[1..], esc)
    else if p[0] == '%' then Matches(p[1..], s, esc) || (s != "" && Matches(p, s[1..], esc))
    else if p[0] == '_' then s != "" && Matches(p[1..], s[1..], esc)
    else s != "" && s[0] == p[0] && Matches(p[1..], s[1..], esc)
  }

  // ---- escaping ---------------------------------------------------------------

  predicate Special(c: char) {
    c == ESC || c == '%' || c == '_'
  }

  /** Each metacharacter preceded by the escape character, in one pass. */
  function Escape(s: string): string {
    if s == "" then "" else (if Special(s[0]) then [ESC, s[0]] else [s[0]]) + Escape(s[1..])
  }

  /** The replacements as they are made: the escape character first, or it would
      escape the escapes the others add. */
  function EscapeInTurn(s: string): string {
    ReplaceAll(ReplaceAll(ReplaceAll(s, ESC, [ESC, ESC]), '%', [ESC, '%']), '_', [ESC, '_'])
  }

  lemma {:induction false} ReplaceConcat(a: string, b: string, c: char, with: string)
    ensures ReplaceAll(a + b, c, with) == ReplaceAll(a, c, with) + ReplaceAll(b, c, with)
  {
    if a == "" {
      assert a + b == b;
    } else {
      assert (a + b)[1..] == a[1..] + b;
      ReplaceConcat(a[1..], b, c, with);
    }
  }

  /** Three successive replacements are one single-pass escape. */
  lemma {:induction false} SuccessiveIsSinglePass(s: string)
    ensures EscapeInTurn(s) == Escape(s)
  {
    if s != "" {
      SuccessiveIsSinglePass(s[1..]);
      var head := if s[0] == ESC then [ESC, ESC] else [s[0]];
      var rest := ReplaceAll(s[1..], ESC, [ESC, ESC]);
      assert ReplaceAll(s, ESC, [ESC, ESC]) == head + rest;
      ReplaceConcat(head, rest, '%', [ESC, '%']);
      var head2 := ReplaceAll(head, '%', [ESC, '%']);
      ReplaceConcat(head2, ReplaceAll(rest, '%', [ESC, '%']), '_', [ESC, '_']);
      HeadEscapes(s[0]);
    }
  }

  lemma ReplaceOne(c: char, d: char, with: string)
    ensures ReplaceAll([c], d, with) == if c == d then with else [c]
  {
    assert [c][1..] == "" && with + "" == with && [c] + "" == [c];
  }

  lemma ReplaceTwo(a: char, b: char, d: char, with: string)
    ensures ReplaceAll([a, b], d, with) == (if a == d then with else [a]) + (if b == d then with else [b])
  {
    assert [a, b] == [a] + [b];
    ReplaceConcat([a], [b], d, with);
    ReplaceOne(a, d, with);
    ReplaceOne(b, d, with);
  }

  lemma HeadEscapes(c: char)
    ensures EscapeInTurn([c]) == if Special(c) then [ESC, c] else [c]
  {
    ReplaceOne(c, ESC, [ESC, ESC]);
    ReplaceOne(c, '%', [ESC, '%']);
    ReplaceOne(c, '_', [ESC, '_']);
    ReplaceTwo(ESC, ESC, '%', [ESC, '%']);
    ReplaceTwo(ESC, c, '_', [ESC, '_']);
    ReplaceTwo(ESC, ESC, '_', [ESC, '_']);
    assert [ESC] + [ESC] == [ESC, ESC] && [ESC] + [c] == [ESC, c];
  }

  datatype Shape = Contains | StartsWith | EndsWith

  function Pattern(shape: Shape, v: string): string {
    var s := EscapeInTurn(v);
    match shape
    case Contains => "%" + s + "%"
    case StartsWith => s + "%"
    case EndsWith => "%" + s
  }

  // ---- exactness -----------------------------------------------------------------

  predicate IsPrefix(v: string, s: string) {
    |v| <= |s| && s[..|v|] == v
  }

  predicate IsSuffix(v: string, s: string) {
    |v| <= |s| && s[|s| - |v|..] == v
  }

  predicate IsSubstring(v: string, s: string) {
    exists i | 0 <= i <= |s| :: IsPrefix(v, s[i..])
  }

  predicate Shaped(shape: Shape, v: string, s: string) {
    match shape
    case Contains => IsSubstring(v, s)
    case StartsWith => IsPrefix(v, s)
    case EndsWith => IsSuffix(v, s)
  }

  /** One escaped character at the head of a pattern takes that character. */
  lemma EscapedCharMatches(c: char, q: string, s: string)
    ensures var head := if Special(c) then [ESC, c] else [c];
            Matches(head + q, s, Some(ESC)) <==> s != "" && s[0] == c && Matches(q, s[1..], Some(ESC))
  {
    var head := if Special(c) then [ESC, c] else [c];
    assert (head + q)[|head|..] == q;
  }

  /** An escaped value at the head of a pattern matches itself and nothing else. */
  lemma {:induction false} EscapedMatchesItself(v: string, p: string, s: string)
    ensures Matches(Escape(v) + p, s, Some(ESC)) <==> IsPrefix(v, s) && Matches(p, s[|v|..], Some(ESC))
    decreases |v|
  {
    hide Matches;
    if v == "" {
      assert Escape(v) + p == p;
      assert s[0..] == s;
    } else {
      var head := if Special(v[0]) then [ESC, v[0]] else [v[0]];
      assert Escape(v) + p == head + (Escape(v[1..]) + p);
      EscapedCharMatches(v[0], Escape(v[1..]) + p, s);
      if s != "" {
        EscapedMatchesItself(v[1..], p, s[1..]);
        PrefixCons(v, s);
        if |v| <= |s| { assert s[1..][|v| - 1..] == s[|v|..]; }
      }
    }
  }

  lemma PrefixCons(v: string, s: string)
    requires v != "" && s != ""
    ensures IsPrefix(v, s) <==> s[0] == v[0] && IsPrefix(v[1..], s[1..])
  {
    assert v == [v[0]] + v[1..];
    if |v| <= |s| { assert s[..|v|] == [s[0]] + s[1..][..|v| - 1]; }
  }

  lemma {:induction false} PercentMatchesAll(s: string)
    ensures Matches("%", s, Some(ESC))
  {
    if s != "" { PercentMatchesAll(s[1..]); }
  }

  /** A leading % lets the rest of the pattern start anywhere. */
  lemma {:induction false} PercentFloats(p: string, s: string)
    ensures Matches("%" + p, s, Some(ESC)) <==> exists i | 0 <= i <= |s| :: Matches(p, s[i..], Some(ESC))
    decreases |s|
  {
    var q := "%" + p;
    assert q[1..] == p && s[0..] == s;
    if s != "" {
      PercentFloats(p, s[1..]);
      assert forall i :: 0 <= i <= |s| - 1 ==> s[1..][i..] == s[i + 1..];
      if exists i | 0 <= i <= |s| :: Matches(p, s[i..], Some(ESC)) {
        var i :| 0 <= i <= |s| && Matches(p, s[i..], Some(ESC));
        if i > 0 { assert s[1..][i - 1..] == s[i..]; }
      }
    }
  }

  /** The pattern built for a value accepts exactly the strings that contain it,
      start with it or end with it, metacharacters and all. */
  lemma PatternIsExact(shape: Shape, v: string, s: string)
    ensures Matches(Pattern(shape, v), s, Some(ESC)) <==> Shaped(shape, v, s)
  {
    SuccessiveIsSinglePass(v);
    var e := Escape(v);
    match shape
    case StartsWith =>
      EscapedMatchesItself(v, "%", s);
      if IsPrefix(v, s) { PercentMatchesAll(s[|v|..]); }
    case Contains =>
      assert "%" + e + "%" == "%" + (e + "%");
      PercentFloats(e + "%", s);
      forall i | 0 <= i <= |s| ensures Matches(e + "%", s[i..], Some(ESC)) <==> IsPrefix(v, s[i..]) {
        EscapedMatchesItself(v, "%", s[i..]);
        if IsPrefix(v, s[i..]) { PercentMatchesAll(s[i..][|v|..]); }
      }
    case EndsWith =>
      PercentFloats(e, s);
      forall i | 0 <= i <= |s|
        ensures Matches(e, s[i..], Some(ESC)) <==> IsSuffix(v, s) && i == |s| - |v|
      {
        EscapedMatchesItself(v, "", s[i..]);
        assert e + "" == e;
        if IsPrefix(v, s[i..]) && s[i..][|v|..] == "" { assert s[i..][..|v|] == s[i..]; }
      }
      if IsSuffix(v, s) { assert Matches(e, s[|s| - |v|..], Some(ESC)); }
  }

  // ---- case folding -----------------------------------------------------------------

  function Fold(lower: char -> char, s: string): string {
    if s == "" then "" else [lower(s[0])] + Fold(lower, s[1..])
  }

  /** Lower-casing leaves the metacharacters alone and makes no new ones. */
  ghost predicate FoldsLetters(lower: char -> char) {
    forall c :: (Special(c) ==> lower(c) == c) && (!Special(c) ==> !Special(lower(c)))
  }

  lemma {:induction false} FoldConcat(lower: char -> char, a: string, b: string)
    ensures Fold(lower, a + b) == Fold(lower, a) + Fold(lower, b)
  {
    if a == "" {
      assert a + b == b;
    } else {
      assert (a + b)[1..] == a[1..] + b;
      FoldConcat(lower, a[1..], b);
    }
  }

  lemma {:induction false} FoldEscape(lower: char -> char, s: string)
    requires FoldsLetters(lower)
    ensures Fold(lower, Escape(s)) == Escape(Fold(lower, s))
  {
    if s != "" {
      FoldEscape(lower, s[1..]);
      var head := if Special(s[0]) then [ESC, s[0]] else [s[0]];
      FoldConcat(lower, head, Escape(s[1..]));
      assert Special(s[0]) ==> Fold(lower, head) == [lower(ESC), lower(s[0])] by {
        if Special(s[0]) { assert head[1..] == [s[0]]; }
      }
      assert Fold(lower, s)[0] == lower(s[0]) && Fold(lower, s)[1..] == Fold(lower, s[1..]);
    }
  }

  /** Lower-casing a pattern is building the pattern of the lower-cased value. */
  lemma FoldPattern(lower: char -> char, shape: Shape, v: string)
    requires FoldsLetters(lower)
    ensures Fold(lower, Pattern(shape, v)) == Pattern(shape, Fold(lower, v))
  {
    SuccessiveIsSinglePass(v);
    SuccessiveIsSinglePass(Fold(lower, v));
    FoldEscape(lower, v);
    var e := Escape(v);
    assert Fold(lower, "%") == "%" by { assert Special('%'); }
    FoldConcat(lower, "%", e);
    FoldConcat(lower, "%" + e, "%");
    FoldConcat(lower, e, "%");
  }
}
