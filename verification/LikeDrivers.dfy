/** Patterns and literal values, where the two drivers' own rules differ: Postgres
    takes a backslash in a raw pattern as an escape, SQLite does not, and each folds
    case in its own way. */
module LikeDrivers {
  import opened Wrappers
  import opened LikePattern

  /** Folding hides the difference between c and some other character. */
  ghost predicate CaseMatters(fold: char -> char, c: char) {
    exists d :: d != c && fold(d) == fold(c)
  }

  ghost predicate NoCases(fold: char -> char, p: string) {
    forall c :: c in p ==> !CaseMatters(fold, c)
  }

  /** The two foldings identify the same characters with each character of p. */
  ghost predicate SameClasses(g: char -> char, f: char -> char, p: string) {
    forall c, d {:trigger g(d), g(c)} {:trigger f(d), f(c)} :: c in p ==> (g(d) == g(c) <==> f(d) == f(c))
  }

  /** Two LIKEs accept the same texts. */
  ghost predicate SameLike(p: string, g: char -> char, esc: Option<char>, f: char -> char, esc': Option<char>) {
    forall s :: Matches(Fold(g, p), Fold(g, s), esc) == Matches(Fold(f, p), Fold(f, s), esc')
  }

  function Itself(c: char): char { c }

  // ---- the shortest texts a pattern matches ------------------------------------------

  /** The shortest text p matches, "0" standing for each "_". */
  function Shortest(p: string, esc: Option<char>): string {
    if p == "" then ""
    else if esc == Some(p[0]) then (if |p| >= 2 then [p[1]] + Shortest(p[2..], esc) else "")
    else if p[0] == '%' then Shortest(p[1..], esc)
    else [if p[0] == '_' then '0' else p[0]] + Shortest(p[1..], esc)
  }

  /** p matches s with nothing under its percent signs; no escapes. */
  predicate Aligned(p: string, s: string) {
    if p == "" then s == ""
    else if p[0] == '%' then Aligned(p[1..], s)
    else s != "" && (p[0] == '_' || s[0] == p[0]) && Aligned(p[1..], s[1..])
  }

  function Length(p: string): nat {
    if p == "" then 0 else (if p[0] == '%' then 0 else 1) + Length(p[1..])
  }

  /** Every escape has a character to escape. */
  predicate WellEscaped(p: string) {
    if p == "" then true
    else if p[0] == ESC then |p| >= 2 && WellEscaped(p[2..])
    else WellEscaped(p[1..])
  }

  lemma {:induction false} NoShorter(p: string, s: string)
    requires Matches(p, s, None)
    ensures |s| >= Length(p)
    decreases |p| + |s|
  {
    if p != "" {
      if p[0] == '%' {
        if Matches(p[1..], s, None) { NoShorter(p[1..], s); } else { NoShorter(p, s[1..]); }
      } else {
        NoShorter(p[1..], s[1..]);
      }
    }
  }

  /** On a text as short as can be, matching is aligning. */
  lemma {:induction false} TightMatch(p: string, s: string)
    requires |s| <= Length(p)
    ensures Matches(p, s, None) <==> |s| == Length(p) && Aligned(p, s)
    decreases |p| + |s|
  {
    if Matches(p, s, None) { NoShorter(p, s); }
    if p != "" {
      if p[0] == '%' {
        TightMatch(p[1..], s);
        if s != "" && Matches(p, s[1..], None) {
          NoShorter(p, s[1..]);
          assert false;
        }
      } else if s != "" {
        TightMatch(p[1..], s[1..]);
      }
    }
  }

  lemma {:induction false} NeverMatches(p: string, s: string)
    requires !WellEscaped(p)
    ensures !Matches(p, s, Some(ESC))
    decreases |p| + |s|
  {
    if p[0] == ESC {
      if |p| >= 2 && s != "" { NeverMatches(p[2..], s[1..]); }
    } else {
      NeverMatches(p[1..], s);
      if s != "" {
        NeverMatches(p[1..], s[1..]);
        NeverMatches(p, s[1..]);
      }
    }
  }

  lemma FoldCons(fold: char -> char, s: string)
    requires s != ""
    ensures Fold(fold, s) != "" && Fold(fold, s)[0] == fold(s[0]) && Fold(fold, s)[1..] == Fold(fold, s[1..])
  {
  }

  lemma {:induction false} FoldFacts(fold: char -> char, s: string)
    requires FoldsLetters(fold)
    ensures |Fold(fold, s)| == |s| && Length(Fold(fold, s)) == Length(s)
    ensures WellEscaped(Fold(fold, s)) <==> WellEscaped(s)
    ensures ESC in Fold(fold, s) <==> ESC in s
    decreases |s|
  {
    if s != "" {
      FoldCons(fold, s);
      assert s == [s[0]] + s[1..];
      FoldFacts(fold, s[1..]);
      if |s| >= 2 {
        FoldCons(fold, s[1..]);
        assert Fold(fold, s)[2..] == Fold(fold, s[2..]) && s[2..] == s[1..][1..];
        FoldFacts(fold, s[2..]);
      }
    }
  }

  lemma {:induction false} FoldItself(s: string)
    ensures Fold(Itself, s) == s
  {
    if s != "" { FoldItself(s[1..]); }
  }

  /** A pattern matches its own shortest text, however both are folded. */
  lemma {:induction false} ShortestMatches(fold: char -> char, p: string, esc: Option<char>)
    requires FoldsLetters(fold) && (esc == Some(ESC) || esc == None)
    requires esc == Some(ESC) ==> WellEscaped(p)
    ensures Matches(Fold(fold, p), Fold(fold, Shortest(p, esc)), esc)
    decreases |p|
  {
    if p != "" {
      FoldCons(fold, p);
      var s := Shortest(p, esc);
      if esc == Some(p[0]) {
        FoldCons(fold, p[1..]);
        assert Fold(fold, p)[2..] == Fold(fold, p[2..]) && Fold(fold, p)[1] == fold(p[1]);
        FoldCons(fold, s);
        assert s[1..] == Shortest(p[2..], esc);
        ShortestMatches(fold, p[2..], esc);
      } else {
        ShortestMatches(fold, p[1..], esc);
        if p[0] != '%' {
          FoldCons(fold, s);
          assert s[1..] == Shortest(p[1..], esc);
        }
      }
    }
  }

  // ---- the escape character --------------------------------------------------------------

  /** What an escape takes as one character, or as a literal percent sign, a pattern
      without escapes cannot. */
  lemma {:induction false} EscapedIsShorter(fold: char -> char, p: string)
    requires FoldsLetters(fold) && WellEscaped(p)
    ensures var s := Shortest(p, Some(ESC));
            && |s| <= Length(p)
            && (ESC in p && |s| == Length(p) ==> !Aligned(Fold(fold, p), Fold(fold, s)))
    decreases |p|
  {
    if p != "" {
      var s := Shortest(p, Some(ESC));
      FoldCons(fold, p);
      assert p == [p[0]] + p[1..];
      if p[0] == ESC {
        EscapedIsShorter(fold, p[2..]);
        assert p[2..] == p[1..][1..];
        FoldCons(fold, s);
      } else {
        EscapedIsShorter(fold, p[1..]);
        if p[0] != '%' { FoldCons(fold, s); }
      }
    }
  }

  /** A pattern with a backslash means different things with and without escapes. */
  lemma EscapeMatters(p: string, g: char -> char, f: char -> char)
    requires FoldsLetters(g) && FoldsLetters(f) && ESC in p
    ensures !SameLike(p, g, Some(ESC), f, None)
  {
    hide Matches, Shortest;
    FoldFacts(g, p);
    FoldFacts(f, p);
    if WellEscaped(p) {
      var s := Shortest(p, Some(ESC));
      ShortestMatches(g, p, Some(ESC));
      EscapedIsShorter(f, p);
      FoldFacts(f, s);
      TightMatch(Fold(f, p), Fold(f, s));
      assert Matches(Fold(g, p), Fold(g, s), Some(ESC)) != Matches(Fold(f, p), Fold(f, s), None);
    } else {
      var s := Shortest(p, None);
      NeverMatches(Fold(g, p), Fold(g, s));
      ShortestMatches(f, p, None);
      assert Matches(Fold(g, p), Fold(g, s), Some(ESC)) != Matches(Fold(f, p), Fold(f, s), None);
    }
  }

  // ---- case ------------------------------------------------------------------------------

  /** The shortest text of a pattern without escapes, d in place of its i-th character. */
  function Variant(p: string, i: nat, d: char): string
    requires i < |p|
  {
    if i == 0 then [d] + Shortest(p[1..], None)
    else (if p[0] == '%' then "" else [if p[0] == '_' then '0' else p[0]]) + Variant(p[1..], i - 1, d)
  }

  lemma {:induction false} ShortestLength(p: string)
    ensures |Shortest(p, None)| == Length(p)
  {
    if p != "" { ShortestLength(p[1..]); }
  }

  lemma {:induction false} VariantMismatches(fold: char -> char, p: string, i: nat, d: char)
    requires FoldsLetters(fold) && i < |p| && !Special(p[i]) && fold(d) != fold(p[i])
    ensures |Variant(p, i, d)| == Length(p) && !Aligned(Fold(fold, p), Fold(fold, Variant(p, i, d)))
    decreases |p|
  {
    ShortestLength(p[1..]);
    var s := Variant(p, i, d);
    FoldCons(fold, p);
    if i == 0 {
      FoldCons(fold, s);
    } else {
      VariantMismatches(fold, p[1..], i - 1, d);
      var rest := Variant(p[1..], i - 1, d);
      assert p[0] == '%' ==> s == rest;
      if p[0] != '%' {
        assert s[1..] == rest;
        FoldCons(fold, s);
      }
    }
  }

  lemma {:induction false} VariantFolds(fold: char -> char, p: string, i: nat, d: char)
    requires FoldsLetters(fold) && i < |p| && !Special(p[i]) && fold(d) == fold(p[i])
    ensures Matches(Fold(fold, p), Fold(fold, Variant(p, i, d)), None)
    decreases |p|
  {
    var s := Variant(p, i, d);
    FoldCons(fold, p);
    if i == 0 {
      ShortestMatches(fold, p[1..], None);
      FoldCons(fold, s);
      assert s[1..] == Shortest(p[1..], None);
    } else {
      VariantFolds(fold, p[1..], i - 1, d);
      assert p[0] == '%' ==> s == Variant(p[1..], i - 1, d);
      if p[0] != '%' {
        FoldCons(fold, s);
        assert s[1..] == Variant(p[1..], i - 1, d);
      }
    }
  }

  /** A text that one folding lets p match and the other does not. */
  lemma VariantTells(merges: char -> char, keeps: char -> char, p: string, i: nat, d: char)
    requires FoldsLetters(merges) && FoldsLetters(keeps) && i < |p| && !Special(p[i])
    requires merges(d) == merges(p[i]) && keeps(d) != keeps(p[i])
    ensures Matches(Fold(merges, p), Fold(merges, Variant(p, i, d)), None) && !Matches(Fold(keeps, p), Fold(keeps, Variant(p, i, d)), None)
  {
    hide Matches, Aligned;
    var s := Variant(p, i, d);
    VariantFolds(merges, p, i, d);
    VariantMismatches(keeps, p, i, d);
    FoldFacts(keeps, p);
    FoldFacts(keeps, s);
    TightMatch(Fold(keeps, p), Fold(keeps, s));
  }

  /** One character is enough to tell two foldings apart. */
  lemma CaseDiffers(g: char -> char, f: char -> char, p: string)
    requires FoldsLetters(g) && FoldsLetters(f) && !SameClasses(g, f, p)
    ensures !SameLike(p, g, None, f, None)
  {
    hide Matches, Variant;
    var c, d :| c in p && (g(d) == g(c)) != (f(d) == f(c));
    var i :| 0 <= i < |p| && p[i] == c;
    assert !Special(c);
    var s := Variant(p, i, d);
    if g(d) == g(c) { VariantTells(g, f, p, i, d); } else { VariantTells(f, g, p, i, d); }
    assert Matches(Fold(g, p), Fold(g, s), None) != Matches(Fold(f, p), Fold(f, s), None);
  }

  /** Foldings that identify the same characters match the same texts. */
  lemma {:induction false} SameClassesNoDifference(g: char -> char, f: char -> char, p: string, s: string)
    requires FoldsLetters(g) && FoldsLetters(f) && SameClasses(g, f, p)
    ensures Matches(Fold(g, p), Fold(g, s), None) == Matches(Fold(f, p), Fold(f, s), None)
    decreases |p| + |s|
  {
    if p != "" {
      FoldCons(g, p);
      FoldCons(f, p);
      assert p[0] in p && forall c :: c in p[1..] ==> c in p;
      SameClassesNoDifference(g, f, p[1..], s);
      if s != "" {
        FoldCons(g, s);
        FoldCons(f, s);
        assert g(s[0]) == g(p[0]) <==> f(s[0]) == f(p[0]);
        SameClassesNoDifference(g, f, p[1..], s[1..]);
        SameClassesNoDifference(g, f, p, s[1..]);
      } else {
        assert Fold(g, s) == "" && Fold(f, s) == "";
      }
    }
  }

  lemma {:induction false} NoEscapeNeeded(p: string, s: string)
    requires ESC !in p
    ensures Matches(p, s, Some(ESC)) == Matches(p, s, None)
    decreases |p| + |s|
  {
    if p != "" {
      assert p[0] != ESC;
      NoEscapeNeeded(p[1..], s);
      if s != "" {
        NoEscapeNeeded(p[1..], s[1..]);
        NoEscapeNeeded(p, s[1..]);
      }
    }
  }

  // ---- exactly --------------------------------------------------------------------------------

  /** A raw pattern selects the same texts on both drivers exactly when it holds no
      backslash, and their foldings identify the same characters with each of its. */
  lemma RawAgreesIff(g: char -> char, f: char -> char, p: string)
    requires FoldsLetters(g) && FoldsLetters(f)
    ensures SameLike(p, g, Some(ESC), f, None) <==> ESC !in p && SameClasses(g, f, p)
  {
    hide Matches, SameClasses;
    if ESC in p {
      EscapeMatters(p, g, f);
    } else {
      FoldFacts(g, p);
      forall s ensures Matches(Fold(g, p), Fold(g, s), Some(ESC)) == Matches(Fold(g, p), Fold(g, s), None) {
        NoEscapeNeeded(Fold(g, p), Fold(g, s));
      }
      if SameClasses(g, f, p) {
        forall s ensures Matches(Fold(g, p), Fold(g, s), None) == Matches(Fold(f, p), Fold(f, s), None) {
          SameClassesNoDifference(g, f, p, s);
        }
      } else {
        CaseDiffers(g, f, p);
        var s :| Matches(Fold(g, p), Fold(g, s), None) != Matches(Fold(f, p), Fold(f, s), None);
        assert Matches(Fold(g, p), Fold(g, s), Some(ESC)) != Matches(Fold(f, p), Fold(f, s), None);
      }
    }
  }

  /** A LIKE that folds nothing and one that folds agree exactly on patterns without
      a backslash and without a letter whose case folding could hide. */
  lemma LikeAgreesIff(fold: char -> char, p: string)
    requires FoldsLetters(fold)
    ensures SameLike(p, Itself, Some(ESC), fold, None) <==> ESC !in p && NoCases(fold, p)
  {
    RawAgreesIff(Itself, fold, p);
    ClassesUnfolded(Itself, fold, p);
  }

  /** Next to a folding that changes nothing: no letter whose case the other hides. */
  lemma ClassesUnfolded(g: char -> char, f: char -> char, p: string)
    requires forall c :: g(c) == c
    ensures SameClasses(g, f, p) <==> NoCases(f, p)
  {
    if SameClasses(g, f, p) {
      forall c | c in p ensures !CaseMatters(f, c) {
        forall d ensures g(d) == g(c) <==> f(d) == f(c) {}
      }
    }
    if NoCases(f, p) {
      forall c, d | c in p ensures g(d) == g(c) <==> f(d) == f(c) { assert !CaseMatters(f, c); }
    }
  }

  lemma ClassesAlike(g: char -> char, f: char -> char, p: string)
    requires forall c :: g(c) == f(c)
    ensures SameClasses(g, f, p)
  {
    forall c, d | c in p ensures g(d) == g(c) <==> f(d) == f(c) {}
  }

  /** Two LIKEs that fold alike do exactly on patterns without a backslash. */
  lemma ILikeAgreesIff(fold: char -> char, p: string)
    requires FoldsLetters(fold)
    ensures SameLike(p, fold, Some(ESC), fold, None) <==> ESC !in p
  {
    RawAgreesIff(fold, fold, p);
  }

  // ---- literal values ------------------------------------------------------------------------

  /** Two folded substring tests accept the same texts. */
  ghost predicate SameShaped(shape: Shape, v: string, g: char -> char, f: char -> char) {
    forall s :: Shaped(shape, Fold(g, v), Fold(g, s)) == Shaped(shape, Fold(f, v), Fold(f, s))
  }

  lemma {:induction false} FoldAt(fold: char -> char, s: string)
    ensures |Fold(fold, s)| == |s| && forall i :: 0 <= i < |s| ==> Fold(fold, s)[i] == fold(s[i])
  {
    if s != "" {
      FoldAt(fold, s[1..]);
      FoldCons(fold, s);
    }
  }

  /** v stands at position k of s. */
  predicate StandsAt(v: string, s: string, k: nat) {
    k + |v| <= |s| && forall i :: 0 <= i < |v| ==> s[k + i] == v[i]
  }

  lemma ShapedStands(shape: Shape, v: string, s: string)
    ensures Shaped(shape, v, s) <==>
            match shape
            case Contains => exists k: nat :: StandsAt(v, s, k)
            case StartsWith => StandsAt(v, s, 0)
            case EndsWith => |v| <= |s| && StandsAt(v, s, |s| - |v|)
  {
    forall k: nat | k <= |s| ensures IsPrefix(v, s[k..]) <==> StandsAt(v, s, k) {
      if StandsAt(v, s, k) { assert s[k..][..|v|] == v; }
      if IsPrefix(v, s[k..]) { forall i | 0 <= i < |v| ensures s[k + i] == v[i] { assert s[k..][..|v|][i] == v[i]; } }
    }
    assert s[0..] == s;
    if |v| <= |s| {
      var t := s[|s| - |v|..];
      assert t[..|v|] == t;
    }
    if exists k: nat :: StandsAt(v, s, k) {
      var k: nat :| StandsAt(v, s, k);
      assert IsPrefix(v, s[k..]);
    }
  }

  lemma StandsAlike(g: char -> char, f: char -> char, v: string, s: string, k: nat)
    requires SameClasses(g, f, v)
    ensures StandsAt(Fold(g, v), Fold(g, s), k) <==> StandsAt(Fold(f, v), Fold(f, s), k)
  {
    FoldAt(g, v);
    FoldAt(f, v);
    FoldAt(g, s);
    FoldAt(f, s);
    forall i | 0 <= i < |v| && k + |v| <= |s| ensures Fold(g, s)[k + i] == Fold(g, v)[i] <==> Fold(f, s)[k + i] == Fold(f, v)[i] {
      assert v[i] in v && (g(s[k + i]) == g(v[i]) <==> f(s[k + i]) == f(v[i]));
    }
  }

  /** contains, starts_with and ends_with select the same texts under two foldings
      exactly when these identify the same characters with each of the value's. */
  lemma ShapedAgreesIff(shape: Shape, g: char -> char, f: char -> char, v: string)
    ensures SameShaped(shape, v, g, f) <==> SameClasses(g, f, v)
  {
    hide Shaped, Fold;
    if SameClasses(g, f, v) {
      forall s ensures Shaped(shape, Fold(g, v), Fold(g, s)) == Shaped(shape, Fold(f, v), Fold(f, s)) {
        ShapedAlike(shape, g, f, v, s);
      }
    } else {
      var c, d :| c in v && (g(d) == g(c)) != (f(d) == f(c));
      var i :| 0 <= i < |v| && v[i] == c;
      var s := v[i := d];
      ShapedAtLength(shape, g, v, i, d);
      ShapedAtLength(shape, f, v, i, d);
      assert Shaped(shape, Fold(g, v), Fold(g, s)) != Shaped(shape, Fold(f, v), Fold(f, s));
    }
  }

  lemma ShapedAlike(shape: Shape, g: char -> char, f: char -> char, v: string, s: string)
    requires SameClasses(g, f, v)
    ensures Shaped(shape, Fold(g, v), Fold(g, s)) == Shaped(shape, Fold(f, v), Fold(f, s))
  {
    hide Shaped, Fold, StandsAt, SameClasses;
    FoldAt(g, v);
    FoldAt(f, v);
    FoldAt(g, s);
    FoldAt(f, s);
    ShapedStands(shape, Fold(g, v), Fold(g, s));
    ShapedStands(shape, Fold(f, v), Fold(f, s));
    forall k: nat ensures StandsAt(Fold(g, v), Fold(g, s), k) <==> StandsAt(Fold(f, v), Fold(f, s), k) { StandsAlike(g, f, v, s, k); }
  }

  /** A text as long as the value has its shape only if it folds to the same. */
  lemma ShapedAtLength(shape: Shape, fold: char -> char, v: string, i: nat, d: char)
    requires i < |v|
    ensures Shaped(shape, Fold(fold, v), Fold(fold, v[i := d])) <==> fold(d) == fold(v[i])
  {
    hide Shaped, Fold;
    var s := v[i := d];
    FoldAt(fold, v);
    FoldAt(fold, s);
    ShapedStands(shape, Fold(fold, v), Fold(fold, s));
    if fold(d) == fold(v[i]) { assert StandsAt(Fold(fold, v), Fold(fold, s), 0); }
    forall k: nat | StandsAt(Fold(fold, v), Fold(fold, s), k) ensures fold(d) == fold(v[i]) {
      assert k == 0 && Fold(fold, s)[k + i] == Fold(fold, v)[i];
    }
  }
}
