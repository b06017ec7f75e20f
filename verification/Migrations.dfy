/** Versioned migrations: whatever the failures and crashes of earlier runs, one run
    that completes leaves the database an uninterrupted run would have left. */
module Migrations {
  import opened Wrappers
  import opened Ordering

  /** up is what the step does when it succeeds; None is a nil Up. */
  datatype Migration<!S> = Migration(version: string, up: Option<S -> S>, noTransaction: bool)

  datatype Outcome = Done | Failed | Crashed

  datatype Invalid = EmptyVersion(index: nat) | NilUp(version: string) | Duplicate(version: string)

  // ---- validation ------------------------------------------------------------------

  predicate SeenBefore<S>(ms: seq<Migration<S>>, i: nat)
    requires i < |ms|
  {
    exists j :: 0 <= j < i && ms[j].version == ms[i].version
  }

  function Complaint<S>(ms: seq<Migration<S>>, i: nat): Option<Invalid>
    requires i < |ms|
  {
    if ms[i].version == "" then Some(EmptyVersion(i))
    else if ms[i].up.None? then Some(NilUp(ms[i].version))
    else if SeenBefore(ms, i) then Some(Duplicate(ms[i].version))
    else None
  }

  ghost predicate ValidList<S>(ms: seq<Migration<S>>) {
    && (forall i :: 0 <= i < |ms| ==> ms[i].version != "" && ms[i].up.Some?)
    && (forall i, j :: 0 <= i < j < |ms| ==> ms[i].version != ms[j].version)
  }

  method ValidateMigrations<S>(ms: seq<Migration<S>>) returns (e: Option<Invalid>)
    ensures e.None? <==> ValidList(ms)
    ensures e.Some? ==> exists i :: 0 <= i < |ms| && Complaint(ms, i) == e && ValidList(ms[..i])
  {
    var seen: set<string> := {};
    var i := 0;
    while i < |ms|
      invariant 0 <= i <= |ms| && ValidList(ms[..i])
      invariant forall v :: v in seen <==> exists j :: 0 <= j < i && ms[j].version == v
    {
      var m := ms[i];
      if m.version == "" { assert Complaint(ms, i) == Some(EmptyVersion(i)); return Some(EmptyVersion(i)); }
      if m.up.None? { assert Complaint(ms, i) == Some(NilUp(m.version)); return Some(NilUp(m.version)); }
      if m.version in seen { assert Complaint(ms, i) == Some(Duplicate(m.version)); return Some(Duplicate(m.version)); }
      assert forall j :: 0 <= j < i ==> ms[..i + 1][j] == ms[..i][j] && ms[j].version in seen;
      seen := seen + {m.version};
      i := i + 1;
    }
    assert ms[..i] == ms;
    e := None;
  }

  // ---- order ------------------------------------------------------------------------

  predicate Sorted<S>(ms: seq<Migration<S>>) {
    forall i, j :: 0 <= i < j < |ms| ==> Less(ms[i].version, ms[j].version)
  }

  function Insert<S>(m: Migration<S>, ms: seq<Migration<S>>): seq<Migration<S>> {
    if ms == [] || Less(m.version, ms[0].version) then [m] + ms else [ms[0]] + Insert(m, ms[1..])
  }

  function SortByVersion<S>(ms: seq<Migration<S>>): seq<Migration<S>> {
    if ms == [] then [] else Insert(ms[0], SortByVersion(ms[1..]))
  }

  ghost predicate SameMembers<S(!new)>(a: seq<Migration<S>>, b: seq<Migration<S>>) {
    multiset(a) == multiset(b)
  }

  lemma InMultiset<S(!new)>(a: seq<Migration<S>>, b: seq<Migration<S>>, i: nat)
    requires SameMembers(a, b) && i < |a|
    ensures exists j :: 0 <= j < |b| && b[j] == a[i]
  {
    assert a[i] in multiset(b);
  }

  lemma {:induction false} InsertSorts<S(!new)>(m: Migration<S>, ms: seq<Migration<S>>)
    requires Sorted(ms) && forall i :: 0 <= i < |ms| ==> ms[i].version != m.version
    ensures Sorted(Insert(m, ms)) && SameMembers(Insert(m, ms), [m] + ms)
  {
    var r := Insert(m, ms);
    if ms == [] {
    } else if Less(m.version, ms[0].version) {
      forall j | 1 <= j < |r| ensures Less(m.version, r[j].version) {
        if j > 1 { LessTransitive(m.version, ms[0].version, ms[j - 1].version); }
      }
    } else {
      LessTotal(m.version, ms[0].version);
      var t := ms[1..];
      InsertSorts(m, t);
      var rest := Insert(m, t);
      forall j | 0 <= j < |rest| ensures Less(ms[0].version, rest[j].version) {
        InMultiset(rest, [m] + t, j);
        var k :| 0 <= k < |[m] + t| && ([m] + t)[k] == rest[j];
        if k > 0 { assert ([m] + t)[k] == ms[k]; }
      }
      assert ms == [ms[0]] + t;
    }
  }

  /** Sorting yields the same migrations in strictly ascending version order,
      whatever order they were registered in. */
  lemma {:induction false} SortSorts<S(!new)>(ms: seq<Migration<S>>)
    requires ValidList(ms)
    ensures Sorted(SortByVersion(ms)) && SameMembers(SortByVersion(ms), ms) && ValidList(SortByVersion(ms))
  {
    var r := SortByVersion(ms);
    if ms != [] {
      var t := ms[1..];
      SortSorts(t);
      var s := SortByVersion(t);
      forall i | 0 <= i < |s| ensures s[i].version != ms[0].version {
        InMultiset(s, t, i);
        var j :| 0 <= j < |t| && t[j] == s[i];
        assert t[j] == ms[j + 1];
      }
      InsertSorts(ms[0], s);
      assert ms == [ms[0]] + t;
    }
    SortedValid(r, ms);
  }

  lemma SortedValid<S(!new)>(s: seq<Migration<S>>, ms: seq<Migration<S>>)
    requires Sorted(s) && SameMembers(s, ms) && ValidList(ms)
    ensures ValidList(s)
  {
    forall i | 0 <= i < |s| ensures s[i].version != "" && s[i].up.Some? {
      InMultiset(s, ms, i);
    }
    forall i, j | 0 <= i < j < |s| ensures s[i].version != s[j].version {
      assert Less(s[i].version, s[j].version);
      LessIrreflexive(s[i].version);
    }
  }

  /** The order of registration does not matter. */
  lemma SortUnique<S(!new)>(a: seq<Migration<S>>, b: seq<Migration<S>>)
    requires ValidList(a) && ValidList(b) && SameMembers(a, b)
    ensures SortByVersion(a) == SortByVersion(b)
  {
    SortSorts(a);
    SortSorts(b);
    SortedUnique(SortByVersion(a), SortByVersion(b));
  }

  lemma SameFirst<S(!new)>(s: seq<Migration<S>>, t: seq<Migration<S>>)
    requires Sorted(s) && Sorted(t) && SameMembers(s, t) && s != [] && t != []
    ensures s[0] == t[0]
  {
    InMultiset(s, t, 0);
    InMultiset(t, s, 0);
    var i :| 0 <= i < |t| && t[i] == s[0];
    var j :| 0 <= j < |s| && s[j] == t[0];
    LessIrreflexive(s[0].version);
    if i > 0 && j > 0 { LessTransitive(s[0].version, t[0].version, s[0].version); }
  }

  lemma {:induction false} SortedUnique<S(!new)>(s: seq<Migration<S>>, t: seq<Migration<S>>)
    requires Sorted(s) && Sorted(t) && SameMembers(s, t)
    ensures s == t
  {
    assert |s| == |multiset(s)| && |t| == |multiset(t)|;
    if s != [] {
      SameFirst(s, t);
      TailMembers(s, t);
      SortedUnique(s[1..], t[1..]);
      assert s == [s[0]] + s[1..] && t == [t[0]] + t[1..];
    }
  }

  lemma TailMembers<S(!new)>(s: seq<Migration<S>>, t: seq<Migration<S>>)
    requires Sorted(s) && Sorted(t) && SameMembers(s, t) && s != [] && t != [] && s[0] == t[0]
    ensures SameMembers(s[1..], t[1..]) && Sorted(s[1..]) && Sorted(t[1..])
  {
    hide Less;
    assert s == [s[0]] + s[1..] && t == [t[0]] + t[1..];
    assert multiset(s) == multiset{s[0]} + multiset(s[1..]) && multiset(t) == multiset{t[0]} + multiset(t[1..]);
    assert multiset(s[1..]) == multiset(s) - multiset{s[0]} && multiset(t[1..]) == multiset(t) - multiset{t[0]};
  }

  // ---- what a run should leave ------------------------------------------------------------

  /** The migrations a database still lacks, in order. */
  function Pending<S>(ms: seq<Migration<S>>, applied: set<string>): seq<Migration<S>> {
    if ms == [] then [] else (if ms[0].version in applied then [] else [ms[0]]) + Pending(ms[1..], applied)
  }

  function Versions<S>(ms: seq<Migration<S>>): set<string> {
    set i | 0 <= i < |ms| :: ms[i].version
  }

  /** The steps one after another. */
  function Fold<S>(s: S, ms: seq<Migration<S>>): S {
    if ms == [] then s
    else
      var prev := Fold(s, ms[..|ms| - 1]);
      match ms[|ms| - 1].up case Some(up) => up(prev) case None => prev
  }

  lemma {:induction false} PendingConcat<S>(a: seq<Migration<S>>, b: seq<Migration<S>>, applied: set<string>)
    ensures Pending(a + b, applied) == Pending(a, applied) + Pending(b, applied)
  {
    if a == [] {
      assert a + b == b;
    } else {
      assert (a + b)[1..] == a[1..] + b;
      PendingConcat(a[1..], b, applied);
    }
  }

  lemma {:induction false} PendingMembers<S>(ms: seq<Migration<S>>, applied: set<string>, i: nat)
    requires i < |Pending(ms, applied)|
    ensures exists j :: 0 <= j < |ms| && ms[j] == Pending(ms, applied)[i] && ms[j].version !in applied
  {
    var h := if ms[0].version in applied then 0 else 1;
    if i < h {
      assert ms[0] == Pending(ms, applied)[i];
    } else {
      PendingMembers(ms[1..], applied, i - h);
      var j :| 0 <= j < |ms[1..]| && ms[1..][j] == Pending(ms[1..], applied)[i - h] && ms[1..][j].version !in applied;
      assert ms[j + 1] == Pending(ms, applied)[i];
    }
  }

  lemma {:induction false} PendingMore<S>(ms: seq<Migration<S>>, applied: set<string>, more: set<string>)
    requires forall i :: 0 <= i < |ms| ==> ms[i].version !in more
    ensures Pending(ms, applied + more) == Pending(ms, applied)
  {
    if ms != [] {
      assert forall i :: 0 <= i < |ms[1..]| ==> ms[1..][i] == ms[i + 1];
      PendingMore(ms[1..], applied, more);
    }
  }

  lemma {:induction false} AppliedArePast<S>(ms: seq<Migration<S>>, applied: set<string>)
    ensures Pending(ms, applied + Versions(Pending(ms, applied))) == []
  {
    var vs := applied + Versions(Pending(ms, applied));
    forall i | 0 <= i < |ms| ensures ms[i].version in vs { PendingHasAll(ms, applied, i); }
    NothingPending(ms, vs);
  }

  lemma {:induction false} PendingHasAll<S>(ms: seq<Migration<S>>, applied: set<string>, i: nat)
    requires i < |ms|
    ensures ms[i].version in applied || ms[i].version in Versions(Pending(ms, applied))
  {
    var p, h := Pending(ms, applied), if ms[0].version in applied then 0 else 1;
    if i == 0 {
      if h == 1 { assert p[0] == ms[0]; }
    } else {
      PendingHasAll(ms[1..], applied, i - 1);
      var q := Pending(ms[1..], applied);
      if ms[i].version !in applied {
        var k :| 0 <= k < |q| && q[k].version == ms[i].version;
        assert p[h + k] == q[k];
      }
    }
  }

  lemma {:induction false} NothingPending<S>(ms: seq<Migration<S>>, applied: set<string>)
    requires forall i :: 0 <= i < |ms| ==> ms[i].version in applied
    ensures Pending(ms, applied) == []
  {
    if ms != [] {
      assert forall i :: 0 <= i < |ms[1..]| ==> ms[1..][i] == ms[i + 1];
      NothingPending(ms[1..], applied);
    }
  }

  lemma {:induction false} FoldConcat<S>(s: S, a: seq<Migration<S>>, b: seq<Migration<S>>)
    ensures Fold(s, a + b) == Fold(Fold(s, a), b)
    decreases |b|
  {
    if b == [] {
      assert a + b == a;
    } else {
      FoldConcat(s, a, b[..|b| - 1]);
      assert (a + b)[..|a + b| - 1] == a + b[..|b| - 1];
    }
  }

  /** Having applied those of the first i migrations that were pending, the rest is
      what is still pending. */
  lemma RestPending<S(!new)>(ms: seq<Migration<S>>, applied: set<string>, i: nat)
    requires ValidList(ms) && i <= |ms|
    ensures var done := Pending(ms[..i], applied);
            && Pending(ms, applied) == done + Pending(ms[i..], applied)
            && Pending(ms, applied + Versions(done)) == Pending(ms[i..], applied)
  {
    var done := Pending(ms[..i], applied);
    assert ms == ms[..i] + ms[i..];
    PendingConcat(ms[..i], ms[i..], applied);
    PendingConcat(ms[..i], ms[i..], applied + Versions(done));
    AppliedArePast(ms[..i], applied);
    forall k, j | 0 <= k < |ms[i..]| && 0 <= j < |done| ensures ms[i..][k].version != done[j].version {
      PendingMembers(ms[..i], applied, j);
      assert ms[i..][k] == ms[i + k];
    }
    PendingMore(ms[i..], applied, Versions(done));
  }

  // ---- the database ---------------------------------------------------------------------------

  class Database<S(!new)> {
    var state: S
    var applied: set<string>
    // what was recorded when observation began; how often each step took effect
    // since; and how often one took effect without being recorded
    ghost var recordedBefore: set<string>
    ghost var effects: multiset<string>
    ghost var unrecorded: multiset<string>

    /** Every effect since observation began was recorded, once, or is one of the
        unrecorded ones. */
    ghost predicate Valid()
      reads this
    {
      recordedBefore <= applied && effects == multiset(applied - recordedBefore) + unrecorded
    }

    constructor (state: S, applied: set<string>)
      ensures Valid() && this.state == state && this.applied == applied && effects == multiset{} && unrecorded == multiset{}
    {
      this.state, this.applied, recordedBefore, effects, unrecorded := state, applied, applied, multiset{}, multiset{};
      new;
      assert applied - recordedBefore == {};
    }

    /** The step took effect and is recorded, both or neither. */
    twostate predicate AppliedAndRecorded(m: Migration<S>)
      requires m.up.Some?
      reads this
    {
      state == m.up.value(old(state)) && applied == old(applied) + {m.version} && effects == old(effects) + multiset{m.version}
      && unrecorded == old(unrecorded)
    }

    /** Up took effect and the record was not made. */
    twostate predicate AppliedUnrecorded(m: Migration<S>)
      requires m.up.Some?
      reads this
    {
      state == m.up.value(old(state)) && applied == old(applied) && effects == old(effects) + multiset{m.version}
      && unrecorded == old(unrecorded) + multiset{m.version}
    }

    /** Up stopped half-way, leaving any state. */
    twostate predicate UpFailed()
      reads this
    {
      applied == old(applied) && effects == old(effects) && unrecorded == old(unrecorded)
    }

    method Record(m: Migration<S>)
      requires m.up.Some? && m.version !in applied && Valid()
      modifies this
      ensures Valid() && AppliedAndRecorded(m) && recordedBefore == old(recordedBefore)
    {
      ghost var was := applied;
      state := m.up.value(state);
      applied := applied + {m.version};
      effects := effects + multiset{m.version};
      assert applied - recordedBefore == (was - recordedBefore) + {m.version};
    }

    /** Inside a transaction, a crash or an error at any point leaves the step either
        not applied at all or applied and recorded: an error on the commit itself may
        be either. Outside one, an interruption between Up and the record leaves an
        effect that is not recorded; an Up that fails half-way leaves any state. */
    method ApplyMigration(m: Migration<S>) returns (r: Outcome)
      requires m.up.Some? && m.version !in applied && Valid()
      modifies this
      ensures Valid() && recordedBefore == old(recordedBefore)
      ensures r == Done ==> AppliedAndRecorded(m)
      ensures !m.noTransaction ==> unchanged(this) || AppliedAndRecorded(m)
      ensures m.noTransaction ==> AppliedAndRecorded(m) || UpFailed() || AppliedUnrecorded(m)
    {
      var point: nat := *;
      var crash: bool := *;
      var stopped := if crash then Crashed else Failed;
      if m.noTransaction {
        if point == 0 {
          state := *;
          return stopped;
        }
        if point == 1 {
          state := m.up.value(state);
          effects := effects + multiset{m.version};
          unrecorded := unrecorded + multiset{m.version};
          return stopped;
        }
        Record(m);
        r := if point == 2 then Crashed else Done;
        return;
      }
      // begin, Up, insert: an error rolls back and a crash loses the transaction
      if point <= 2 { return stopped; }
      Record(m);
      r := if point == 3 then stopped else Done;
    }
  }

  // ---- a run ------------------------------------------------------------------------------------

  ghost predicate AllTransactional<S>(ms: seq<Migration<S>>) {
    forall i :: 0 <= i < |ms| ==> !ms[i].noTransaction
  }

  datatype RunOutcome = Refused(why: Invalid) | Ran(outcome: Outcome)

  /** The version set and, for transactional steps, the state after the first k of
      the pending migrations. */
  ghost predicate Reached<S(!new)>(db: Database<S>, q: seq<Migration<S>>, k: nat, s: S, a: set<string>, u: multiset<string>)
    reads db
  {
    && k <= |q| && db.Valid()
    && db.applied == a + Versions(q[..k])
    && (AllTransactional(q) ==> db.state == Fold(s, q[..k]) && db.unrecorded == u)
    && (forall v :: db.unrecorded[v] > u[v] ==> exists i :: 0 <= i < |q| && q[i].version == v && q[i].noTransaction)
  }

  lemma StartsReached<S(!new)>(db: Database<S>, q: seq<Migration<S>>)
    requires db.Valid()
    ensures Reached(db, q, 0, db.state, db.applied, db.unrecorded)
  {
    assert q[..0] == [];
  }

  /** One more pending migration. */
  lemma StepKeeps<S>(q: seq<Migration<S>>, k: nat, s: S, a: set<string>)
    requires k < |q| && q[k].up.Some?
    ensures Fold(s, q[..k + 1]) == q[k].up.value(Fold(s, q[..k]))
    ensures a + Versions(q[..k + 1]) == (a + Versions(q[..k])) + {q[k].version}
  {
    assert q[..k + 1][..k] == q[..k];
    assert forall i :: 0 <= i < k ==> q[..k + 1][i] == q[..k][i];
    assert q[..k + 1][k] == q[k];
    forall v ensures v in Versions(q[..k + 1]) <==> v in Versions(q[..k]) || v == q[k].version {
      if v in Versions(q[..k]) {
        var i :| 0 <= i < k && q[..k][i].version == v;
        assert q[..k + 1][i].version == v;
      }
    }
  }

  /** Applies one pending migration; k counts those applied and recorded. */
  method ApplyPending<S(!new)>(db: Database<S>, m: Migration<S>, ghost q: seq<Migration<S>>, ghost k: nat, ghost s: S, ghost a: set<string>, ghost u: multiset<string>)
    returns (r: Outcome, ghost k': nat)
    requires Reached(db, q, k, s, a, u) && k < |q| && q[k] == m && m.up.Some? && m.version !in db.applied
    modifies db
    ensures k' == k || k' == k + 1
    ensures r == Done ==> k' == k + 1
    ensures Reached(db, q, k', s, a, u) && db.recordedBefore == old(db.recordedBefore)
  {
    hide Versions, Fold;
    StepKeeps(q, k, s, a);
    r := db.ApplyMigration(m);
    k' := if db.applied == old(db.applied) then k else k + 1;
  }

  /** Validates, sorts, loads what is applied and applies the rest in order. k says
      how many of the pending migrations are recorded when the run ends, however it
      ends; a run that is done has recorded all of them. */
  method RunMigrations<S(!new)>(db: Database<S>, migrations: seq<Migration<S>>) returns (r: RunOutcome, ghost k: nat)
    requires db.Valid()
    modifies db
    ensures r.Refused? <==> !ValidList(migrations)
    ensures r.Refused? ==> unchanged(db)
    ensures r.Ran? ==> Reached(db, Pending(SortByVersion(migrations), old(db.applied)), k, old(db.state), old(db.applied), old(db.unrecorded))
    ensures r == Ran(Done) ==> k == |Pending(SortByVersion(migrations), old(db.applied))|
    ensures db.recordedBefore == old(db.recordedBefore)
  {
    hide Pending, Versions, Reached, SortByVersion;
    k := 0;
    var bad := ValidateMigrations(migrations);
    if bad.Some? { return Refused(bad.value), 0; }
    var sorted := SortByVersion(migrations);
    SortSorts(migrations);
    ghost var s, a, u := db.state, db.applied, db.unrecorded;
    ghost var q := Pending(sorted, a);
    StartsReached(db, q);
    var stop: bool := *;
    var crash: bool := *;
    // the version table could not be made or read
    if stop { return Ran(if crash then Crashed else Failed), 0; }
    var applied := db.applied;
    var i := 0;
    NonePending(sorted, a);
    while i < |sorted|
      invariant 0 <= i <= |sorted| && k == |Pending(sorted[..i], a)|
      invariant db.Valid() && Reached(db, q, k, s, a, u) && db.recordedBefore == old(db.recordedBefore)
    {
      var m := sorted[i];
      NextPending(sorted, a, i);
      if m.version !in applied {
        NotYet(db, q, k, s, a, u, sorted, i);
        var one;
        one, k := ApplyPending(db, m, q, k, s, a, u);
        ReachedIsValid(db, q, k, s, a, u);
        if one != Done { return Ran(one), k; }
      }
      i := i + 1;
    }
    assert sorted[..i] == sorted;
    r := Ran(Done);
  }

  lemma ReachedIsValid<S(!new)>(db: Database<S>, q: seq<Migration<S>>, k: nat, s: S, a: set<string>, u: multiset<string>)
    requires Reached(db, q, k, s, a, u)
    ensures db.Valid()
  {
  }

  lemma NonePending<S>(ms: seq<Migration<S>>, a: set<string>)
    ensures |Pending(ms[..0], a)| == 0
  {
  }

  lemma NextPending<S>(ms: seq<Migration<S>>, a: set<string>, i: nat)
    requires i < |ms|
    ensures var n := |Pending(ms[..i], a)|;
            if ms[i].version in a then Pending(ms[..i + 1], a) == Pending(ms[..i], a)
            else |Pending(ms[..i + 1], a)| == n + 1 && n < |Pending(ms, a)| && Pending(ms, a)[n] == ms[i]
  {
    var one := [ms[i]];
    assert one[1..] == [];
    assert Pending(one, a) == if ms[i].version in a then [] else one;
    assert ms[..i + 1] == ms[..i] + one && ms == ms[..i + 1] + ms[i + 1..];
    PendingConcat(ms[..i], one, a);
    PendingConcat(ms[..i + 1], ms[i + 1..], a);
  }

  lemma NotYet<S(!new)>(db: Database<S>, q: seq<Migration<S>>, k: nat, s: S, a: set<string>, u: multiset<string>, ms: seq<Migration<S>>, i: nat)
    requires Reached(db, q, k, s, a, u) && ValidList(ms) && i < |ms| && ms[i].version !in a
    requires q == Pending(ms, a) && k == |Pending(ms[..i], a)|
    ensures ms[i].version !in db.applied
  {
    hide Fold;
    assert ms == ms[..i] + ms[i..];
    PendingConcat(ms[..i], ms[i..], a);
    assert q[..k] == Pending(ms[..i], a);
    forall j | 0 <= j < k ensures q[..k][j].version != ms[i].version { PendingMembers(ms[..i], a, j); }
  }

  // ---- any runs, then one that completes -------------------------------------------------------

  /** A later run picks up where the earlier one stopped. */
  lemma Resumes<S(!new)>(ms: seq<Migration<S>>, a: set<string>, k: nat)
    requires ValidList(ms) && k <= |Pending(ms, a)|
    ensures Pending(ms, a + Versions(Pending(ms, a)[..k])) == Pending(ms, a)[k..]
    decreases |ms|
  {
    var q := Pending(ms, a);
    var i := CutAt(ms, a, k);
    RestPending(ms, a, i);
    assert q[..k] == Pending(ms[..i], a) && q[k..] == Pending(ms[i..], a);
  }

  /** The prefix of the list that holds exactly the first k pending migrations. */
  lemma {:induction false} CutAt<S(!new)>(ms: seq<Migration<S>>, a: set<string>, k: nat) returns (i: nat)
    requires k <= |Pending(ms, a)|
    ensures i <= |ms| && |Pending(ms[..i], a)| == k && Pending(ms, a) == Pending(ms[..i], a) + Pending(ms[i..], a)
    decreases |ms|
  {
    assert ms[..|ms|] == ms && ms[|ms|..] == [];
    if k == |Pending(ms, a)| { return |ms|; }
    var n := |ms| - 1;
    var init := ms[..n];
    assert ms == init + [ms[n]];
    PendingConcat(init, [ms[n]], a);
    assert [ms[n]][1..] == [];
    assert Pending([ms[n]], a) == if ms[n].version in a then [] else [ms[n]];
    i := CutAt(init, a, k);
    assert init[..i] == ms[..i] && ms == ms[..i] + ms[i..];
    PendingConcat(ms[..i], ms[i..], a);
  }

  lemma ReachedTwice<S(!new)>(db: Database<S>, ms: seq<Migration<S>>, k: nat, j: nat, s: S, a: set<string>, u: multiset<string>, s': S, a': set<string>, u': multiset<string>)
    requires ValidList(ms) && AllTransactional(Pending(ms, a)) && k <= |Pending(ms, a)|
    requires s' == Fold(s, Pending(ms, a)[..k]) && a' == a + Versions(Pending(ms, a)[..k]) && u' == u
    requires Reached(db, Pending(ms, a'), j, s', a', u')
    ensures k + j <= |Pending(ms, a)| && Reached(db, Pending(ms, a), k + j, s, a, u)
    ensures j == |Pending(ms, a')| ==> k + j == |Pending(ms, a)|
  {
    hide Pending, Fold;
    var q := Pending(ms, a);
    Resumes(ms, a, k);
    assert q[k..][..j] == q[k..k + j] && q[..k + j] == q[..k] + q[k..k + j];
    FoldConcat(s, q[..k], q[k..k + j]);
    VersionsConcat(q[..k], q[k..k + j]);
    assert AllTransactional(q[k..]);
  }

  lemma VersionsConcat<S>(p: seq<Migration<S>>, q: seq<Migration<S>>)
    ensures Versions(p + q) == Versions(p) + Versions(q)
  {
    forall v | v in Versions(p) + Versions(q) ensures v in Versions(p + q) {
      if v in Versions(p) {
        var i :| 0 <= i < |p| && p[i].version == v;
        assert (p + q)[i].version == v;
      } else {
        var i :| 0 <= i < |q| && q[i].version == v;
        assert (p + q)[|p| + i].version == v;
      }
    }
  }

  lemma {:induction false} PendingTransactional<S>(ms: seq<Migration<S>>, a: set<string>)
    requires AllTransactional(ms)
    ensures AllTransactional(Pending(ms, a))
  {
    if ms != [] {
      assert forall i :: 0 <= i < |ms[1..]| ==> ms[1..][i] == ms[i + 1];
      PendingTransactional(ms[1..], a);
    }
  }

  lemma SortTransactional<S(!new)>(ms: seq<Migration<S>>)
    requires ValidList(ms) && AllTransactional(ms)
    ensures AllTransactional(SortByVersion(ms))
  {
    SortSorts(ms);
    var s := SortByVersion(ms);
    forall i | 0 <= i < |s| ensures !s[i].noTransaction { InMultiset(s, ms, i); }
  }

  /** Any number of runs, each ending as it will, then one more. If that one is done
      the database holds every migration's effect, exactly once and in version order:
      just what a single uninterrupted run leaves. */
  method RunUntilDone<S(!new)>(db: Database<S>, migrations: seq<Migration<S>>, attempts: nat) returns (done: bool)
    requires db.Valid() && ValidList(migrations) && AllTransactional(migrations)
    modifies db
    ensures var q := Pending(SortByVersion(migrations), old(db.applied));
            done ==>
              && db.state == Fold(old(db.state), q)
              && db.applied == old(db.applied) + Versions(q)
    // however the runs end, each newly recorded step took effect once, and no other
    ensures db.Valid() && db.unrecorded == old(db.unrecorded) && db.recordedBefore == old(db.recordedBefore)
    ensures old(db.applied) <= db.applied && db.effects == old(db.effects) + multiset(db.applied - old(db.applied))
  {
    hide Pending, Versions, SortByVersion, Reached, Fold;
    ghost var rb, es := db.recordedBefore, db.effects;
    ghost var s, a, u := db.state, db.applied, db.unrecorded;
    ghost var ms := SortByVersion(migrations);
    SortSorts(migrations);
    SortTransactional(migrations);
    PendingTransactional(ms, a);
    ghost var q := Pending(ms, a);
    StartsReached(db, q);
    ghost var k: nat := 0;
    var n := 0;
    done := false;
    while n <= attempts
      invariant 0 <= n <= attempts + 1 && db.Valid() && k <= |q| && Reached(db, q, k, s, a, u)
      invariant done ==> k == |q|
      invariant db.recordedBefore == rb
    {
      ReachedFacts(db, q, k, s, a, u);
      ghost var s', a', u' := db.state, db.applied, db.unrecorded;
      ghost var j: nat;
      var r;
      r, j := RunMigrations(db, migrations);
      ReachedTwice(db, ms, k, j, s, a, u, s', a', u');
      k := k + j;
      done := r == Ran(Done);
      ReachedIsValid(db, q, k, s, a, u);
      n := n + 1;
    }
    ReachedFacts(db, q, k, s, a, u);
    assert q[..|q|] == q;
    NewlyRecorded(rb, a, db.applied);
  }

  lemma NewlyRecorded(before: set<string>, a: set<string>, b: set<string>)
    requires before <= a <= b
    ensures multiset(b - before) == multiset(a - before) + multiset(b - a)
  {
    assert b - before == (a - before) + (b - a);
  }

  lemma ReachedFacts<S(!new)>(db: Database<S>, q: seq<Migration<S>>, k: nat, s: S, a: set<string>, u: multiset<string>)
    requires Reached(db, q, k, s, a, u) && AllTransactional(q)
    ensures k <= |q| && db.applied == a + Versions(q[..k]) && db.state == Fold(s, q[..k]) && db.unrecorded == u
  {
  }

  /** Recorded if and only if it took effect, and then once: a step's effects exceed
      one exactly by its interruptions between Up and record. */
  lemma EffectsAreRecorded<S(!new)>(db: Database<S>, v: string)
    requires db.Valid() && v !in db.recordedBefore
    ensures db.effects[v] == (if v in db.applied then 1 else 0) + db.unrecorded[v]
  {
    assert v in db.applied <==> v in db.applied - db.recordedBefore;
  }
}
