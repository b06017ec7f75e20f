/** The order in which a database returns ids: strings compared character by
    character, and the sorted sequence of a finite set of them. */
module Ordering {

  /** a comes strictly before b in ORDER BY id ASC. */
  predicate Less(a: string, b: string) {
    b != "" && (a == "" || a[0] < b[0] || (a[0] == b[0] && Less(a[1..], b[1..])))
  }

  /** Up to the first character in which they differ the two agree; there a's is the
      smaller, or a has come to its end. */
  lemma {:induction false} LessIff(a: string, b: string)
    ensures Less(a, b) <==>
            exists n :: 0 <= n < |b| && n <= |a| && a[..n] == b[..n] && (n == |a| || a[n] < b[n])
  {
    if a != "" && b != "" && a[0] == b[0] {
      LessIff(a[1..], b[1..]);
      if Less(a, b) {
        var n :| 0 <= n < |b[1..]| && n <= |a[1..]| && a[1..][..n] == b[1..][..n] && (n == |a[1..]| || a[1..][n] < b[1..][n]);
        assert a[..n + 1] == [a[0]] + a[1..][..n] && b[..n + 1] == [b[0]] + b[1..][..n];
      }
      if n :| 0 <= n < |b| && n <= |a| && a[..n] == b[..n] && (n == |a| || a[n] < b[n]) {
        assert n > 0;
        assert a[1..][..n - 1] == a[..n][1..] && b[1..][..n - 1] == b[..n][1..];
        assert n - 1 == |a[1..]| || a[1..][n - 1] < b[1..][n - 1];
      }
    } else if Less(a, b) {
      assert a[..0] == b[..0];
    } else if n :| 0 <= n < |b| && n <= |a| && a[..n] == b[..n] && (n == |a| || a[n] < b[n]) {
      if n > 0 { assert a[..n][0] == b[..n][0]; }
    }
  }

  lemma LessIrreflexive(a: string)
    ensures !Less(a, a)
  {
  }

  lemma {:induction false} LessTransitive(a: string, b: string, c: string)
    requires Less(a, b) && Less(b, c)
    ensures Less(a, c)
  {
    if a != "" && a[0] == b[0] && b[0] == c[0] {
      LessTransitive(a[1..], b[1..], c[1..]);
    }
  }

  lemma {:induction false} LessTotal(a: string, b: string)
    ensures a == b || Less(a, b) || Less(b, a)
  {
    if a != "" && b != "" && a[0] == b[0] {
      LessTotal(a[1..], b[1..]);
      assert a == [a[0]] + a[1..] && b == [b[0]] + b[1..];
    }
  }

  /** Strictly ascending, so without repetitions. */
  predicate Ascending(s: seq<string>) {
    forall i, j :: 0 <= i < j < |s| ==> Less(s[i], s[j])
  }

  /** s lists exactly the elements of ids, in ascending order. */
  ghost predicate Lists(s: seq<string>, ids: set<string>) {
    Ascending(s) && (forall x :: x in s <==> x in ids)
  }

  method Smallest(ids: set<string>) returns (m: string)
    requires ids != {}
    ensures m in ids && forall x :: x in ids && x != m ==> Less(m, x)
  {
    m :| m in ids;
    var rest := ids - {m};
    while rest != {}
      invariant m in ids && rest <= ids && m !in rest
      invariant forall x :: x in ids && x != m && x !in rest ==> Less(m, x)
      decreases rest
    {
      var y :| y in rest;
      rest := rest - {y};
      if Less(y, m) {
        forall x | x in ids && x != y && x !in rest ensures Less(y, x) {
          if x != m { LessTransitive(y, m, x); }
        }
        m := y;
      } else {
        LessTotal(y, m);
      }
    }
  }

  method SortIds(ids: set<string>) returns (s: seq<string>)
    ensures Lists(s, ids)
  {
    s := [];
    var rest := ids;
    while rest != {}
      invariant rest <= ids && Ascending(s)
      invariant forall x :: x in s <==> x in ids - rest
      invariant forall x, y :: x in s && y in rest ==> Less(x, y)
      decreases rest
    {
      var m := Smallest(rest);
      s := s + [m];
      rest := rest - {m};
    }
  }

  /** Any two listings of one set agree, so what SortIds answers is determined. */
  lemma {:induction false} ListingUnique(s: seq<string>, t: seq<string>, ids: set<string>)
    requires Lists(s, ids) && Lists(t, ids)
    ensures s == t
    decreases |s|
  {
    assert |s| > 0 ==> s[0] in s;
    assert |t| > 0 ==> t[0] in t;
    if s != [] {
      assert s[0] in t && t[0] in s;
      if s[0] != t[0] {
        var i :| 0 <= i < |t| && t[i] == s[0];
        var j :| 0 <= j < |s| && s[j] == t[0];
        assert Less(t[0], s[0]) && Less(s[0], t[0]);
        LessTransitive(s[0], t[0], s[0]);
        LessIrreflexive(s[0]);
        assert false;
      }
      TailLists(s, ids);
      TailLists(t, ids);
      ListingUnique(s[1..], t[1..], ids - {s[0]});
      assert s == [s[0]] + s[1..] && t == [t[0]] + t[1..];
    }
  }

  lemma TailLists(s: seq<string>, ids: set<string>)
    requires Lists(s, ids) && s != []
    ensures Lists(s[1..], ids - {s[0]})
  {
    forall x | x in s[1..] ensures x in ids - {s[0]} {
      var i :| 0 <= i < |s[1..]| && s[1..][i] == x;
      assert Less(s[0], s[i + 1]);
      LessIrreflexive(s[0]);
      assert x in s;
    }
    forall x | x in ids - {s[0]} ensures x in s[1..] {
      var i :| 0 <= i < |s| && s[i] == x;
      assert s[1..][i - 1] == x;
    }
  }

  // ---- keyset pages ---------------------------------------------------------

  /** The keyset bound of a page: no bound before the first one. */
  predicate Above(id: string, last: string) {
    last == "" || Less(last, id)
  }

  lemma AboveTrans(a: string, b: string, c: string)
    requires Above(b, a) && Above(c, b) && b != ""
    ensures Above(c, a)
  {
    if a != "" { LessTransitive(a, b, c); }
  }

  /** ids is the first page, of at most limit rows, of the sorted matches. */
  ghost predicate IsPage(ids: seq<string>, matching: set<string>, limit: nat) {
    && Ascending(ids)
    && |ids| <= limit
    && (forall x :: x in ids ==> x in matching)
    && (forall x :: x in matching ==> x in ids || (|ids| == limit && forall y :: y in ids ==> Less(y, x)))
  }

  /** A page with room for every match holds every match. */
  lemma PageHoldsAll(ids: seq<string>, matching: set<string>, limit: nat)
    requires IsPage(ids, matching, limit) && |matching| <= limit
    ensures forall x :: x in matching ==> x in ids
  {
    AscendingCounts(ids);
    if x :| x in matching && x !in ids {
      var page := set y | y in ids;
      assert page <= matching - {x} && |matching - {x}| == |matching| - 1;
      SubsetCounts(page, matching - {x});
      assert false;
    }
  }

  lemma {:induction false} AscendingCounts(s: seq<string>)
    requires Ascending(s)
    ensures |set x | x in s| == |s|
  {
    if s != [] {
      var init, last := s[..|s| - 1], s[|s| - 1];
      AscendingCounts(init);
      forall x | x in init ensures x != last { LessIrreflexive(last); }
      assert (set x | x in s) == (set x | x in init) + {last};
    }
  }

  lemma SubsetCounts<T>(a: set<T>, b: set<T>)
    requires a <= b
    ensures |a| <= |b|
  {
    assert b == a + (b - a) && |b| == |a| + |b - a|;
  }

  /** SELECT ... ORDER BY id LIMIT limit, over the ids that match. */
  method FirstPage(matching: set<string>, limit: nat) returns (ids: seq<string>)
    ensures IsPage(ids, matching, limit)
  {
    var sorted := SortIds(matching);
    ids := if |sorted| <= limit then sorted else sorted[..limit];
    forall x | x in matching
      ensures x in ids || (|ids| == limit && forall y :: y in ids ==> Less(y, x))
    {
      var i :| 0 <= i < |sorted| && sorted[i] == x;
      if i < |ids| { assert ids[i] == x; }
    }
  }
}
