/** What a rotation achieves over any number of interrupted runs, and the one kind
    of interruption after which the reported cursor loses rows. */
module RotationTheorems {
  import opened Wrappers
  import opened Ordering
  import opened Rotation

  /** A complete run leaves no old-key envelope in a visible row past its start,
      and every field with the plaintext and every digest it had. */
  lemma CompleteMeansRotated(job: Job, before: Table, after: Table, a: string, id: string)
    requires job.Valid() && job.oldKey != job.newKey
    requires AllClean(job, before, a) && AllRotated(job, before, after, a)
    requires Visible(before, id) && Above(id, a)
    ensures Visible(after, id) && !HoldsOldKey(job, after[id].data)
    ensures forall f :: f in job.fields ==> SameAt(before[id].data, after[id].data, f.Companion())
    ensures forall f :: f in job.fields && f.dbName in before[id].data ==>
              ViewOf(job.kp, after[id].data[f.dbName])
              == RotatedView(job.oldKey, job.newKey, ViewOf(job.kp, before[id].data[f.dbName]))
  {
    RotationLeavesNoOldKey(job, before[id].data, after[id].data);
    forall f | f in job.fields
      ensures SameAt(before[id].data, after[id].data, f.Companion())
      ensures f.dbName in before[id].data ==>
                ViewOf(job.kp, after[id].data[f.dbName])
                == RotatedView(job.oldKey, job.newKey, ViewOf(job.kp, before[id].data[f.dbName]))
    {
      RotationKeepsPlaintexts(job, before[id].data, after[id].data, f);
    }
  }

  // ---- resuming ------------------------------------------------------------------

  /** A run interrupted between rows while it was writing, with no row failing,
      and one complete run from the cursor it reported make one complete run. */
  lemma InterruptedThenResumed(job: Job, t0: Table, t1: Table, t2: Table, a: string, b: string)
    requires RotatedUpTo(job, t0, t1, a, b, {}) && AllRotated(job, t1, t2, b)
    requires b == a || (b != "" && Above(b, a))
    ensures AllRotated(job, t0, t2, a)
  {
    hide RotatedData;
    forall id | id in t0
      ensures if t0[id].visible && Above(id, a)
              then t2[id].visible && RotatedData(job, t0[id].data, t2[id].data)
              else t2[id] == t0[id]
    {
      if b != a && Above(id, b) { AboveTrans(a, b, id); }
    }
  }

  /** Tables and cursors of a rotation that took several runs: each was stopped
      while writing and resumed from the cursor it reported. */
  ghost predicate Runs(job: Job, tables: seq<Table>, cursors: seq<string>) {
    && |tables| == |cursors| > 0
    && (forall i :: 0 <= i < |tables| - 1 ==> StoppedRun(job, tables[i], tables[i + 1], cursors[i], cursors[i + 1]))
  }

  ghost predicate StoppedRun(job: Job, before: Table, after: Table, a: string, b: string) {
    RotatedUpTo(job, before, after, a, b, {}) && (b == a || (b != "" && Above(b, a)))
  }

  /** However often it was stopped, a rotation that in the end completes has
      rotated everything past its first cursor. */
  lemma {:induction false} ResumedToCompletion(job: Job, tables: seq<Table>, cursors: seq<string>, final: Table)
    requires Runs(job, tables, cursors)
    requires AllRotated(job, tables[|tables| - 1], final, cursors[|tables| - 1])
    ensures AllRotated(job, tables[0], final, cursors[0])
    decreases |tables|
  {
    hide AllRotated, RotatedUpTo;
    if |tables| > 1 {
      var n := |tables| - 1;
      var init, marks := tables[..n], cursors[..n];
      forall i | 0 <= i < n - 1 ensures StoppedRun(job, init[i], init[i + 1], marks[i], marks[i + 1]) {
        assert StoppedRun(job, tables[i], tables[i + 1], cursors[i], cursors[i + 1]);
      }
      assert StoppedRun(job, tables[n - 1], tables[n], cursors[n - 1], cursors[n]);
      InterruptedThenResumed(job, tables[n - 1], tables[n], final, cursors[n - 1], cursors[n]);
      ResumedToCompletion(job, init, marks, final);
    }
  }

  // ---- runs that left rows behind ---------------------------------------------------------

  /** The same with the rows each run failed on and left as they were: rows it had
      passed. */
  ghost predicate FailingRuns(job: Job, tables: seq<Table>, cursors: seq<string>, failed: seq<set<string>>) {
    && |tables| == |cursors| == |failed| + 1
    && (forall i :: 0 <= i < |failed| ==> FailingRun(job, tables[i], tables[i + 1], cursors[i], cursors[i + 1], failed[i]))
  }

  ghost predicate FailingRun(job: Job, before: Table, after: Table, a: string, b: string, failed: set<string>) {
    && RotatedUpTo(job, before, after, a, b, failed)
    && (b == a || (b != "" && Above(b, a)))
    && (forall id :: id in failed ==> Visible(before, id) && Passed(id, a, b))
  }

  /** No row some run failed on holds an old-key envelope in the first table. */
  ghost predicate NothingLeft(job: Job, first: Table, failed: seq<set<string>>) {
    forall i, id :: 0 <= i < |failed| && id in failed[i] && id in first ==> !HoldsOldKey(job, first[id].data)
  }

  /** A run that was interrupted after leaving rows behind reports a cursor past
      them: what is resumed there completes the rotation exactly when none of them
      held an old-key envelope. */
  lemma FailedThenResumedIff(job: Job, t0: Table, t1: Table, t2: Table, a: string, b: string, failed: set<string>)
    requires job.Valid() && job.oldKey != job.newKey
    requires FailingRun(job, t0, t1, a, b, failed)
    requires RotatedBut(job, t1, t2, b, {})
    ensures RotatedBut(job, t0, t2, a, failed)
    ensures AllRotated(job, t0, t2, a) <==> forall id :: id in failed ==> !HoldsOldKey(job, t0[id].data)
  {
    OneMoreRun(job, t0, t1, t2, a, b, failed, {});
    assert failed + {} == failed;
    RotatedButIff(job, t0, t2, a, failed);
  }

  /** Every visible row past a is rotated but for those of `left`, and every other
      row is as it was. */
  ghost predicate RotatedBut(job: Job, before: Table, after: Table, a: string, left: set<string>) {
    && before.Keys == after.Keys
    && (forall id :: id in before ==>
          if before[id].visible && Above(id, a) && id !in left
          then after[id].visible && RotatedData(job, before[id].data, after[id].data)
          else after[id] == before[id])
  }

  lemma OneMoreRun(job: Job, t0: Table, t1: Table, t2: Table, a: string, b: string, failed: set<string>, left: set<string>)
    requires FailingRun(job, t0, t1, a, b, failed) && RotatedBut(job, t1, t2, b, left)
    requires forall id :: id in left ==> Above(id, b)
    ensures RotatedBut(job, t0, t2, a, failed + left)
  {
    hide RotatedData;
    forall id | id in t0
      ensures if t0[id].visible && Above(id, a) && id !in failed + left
              then t2[id].visible && RotatedData(job, t0[id].data, t2[id].data)
              else t2[id] == t0[id]
    {
      if b != a && Above(id, b) { AboveTrans(a, b, id); }
    }
  }

  lemma RotatedButIff(job: Job, before: Table, after: Table, a: string, left: set<string>)
    requires job.Valid() && job.oldKey != job.newKey && RotatedBut(job, before, after, a, left)
    requires left <= before.Keys && forall id :: id in left ==> Visible(before, id) && Above(id, a)
    ensures AllRotated(job, before, after, a) <==> forall id :: id in left ==> !HoldsOldKey(job, before[id].data)
  {
    hide RotatedData, HoldsOldKey;
    forall id | id in left ensures RotatedData(job, before[id].data, after[id].data) <==> !HoldsOldKey(job, before[id].data) {
      UntouchedIsRotatedIff(job, before[id].data);
    }
  }

  function AllFailed(failed: seq<set<string>>): set<string> {
    if failed == [] then {} else failed[0] + AllFailed(failed[1..])
  }

  lemma {:induction false} AllFailedHas(failed: seq<set<string>>, id: string)
    ensures id in AllFailed(failed) <==> exists i :: 0 <= i < |failed| && id in failed[i]
  {
    if failed != [] {
      AllFailedHas(failed[1..], id);
      assert forall i :: 1 <= i < |failed| ==> failed[i] == failed[1..][i - 1];
      if i :| 0 <= i < |failed| && id in failed[i] {
        if i > 0 { assert id in failed[1..][i - 1]; }
      }
    }
  }

  /** However many runs were interrupted, rows left behind by one stay as they were. */
  lemma {:induction false} ResumedLeaves(job: Job, tables: seq<Table>, cursors: seq<string>, failed: seq<set<string>>, final: Table)
    requires FailingRuns(job, tables, cursors, failed)
    requires AllRotated(job, tables[|failed|], final, cursors[|failed|])
    ensures RotatedBut(job, tables[0], final, cursors[0], AllFailed(failed))
    ensures forall id :: id in AllFailed(failed) ==> Visible(tables[0], id) && Above(id, cursors[0])
    ensures AllFailed(failed) <= tables[0].Keys
    decreases |failed|
  {
    hide AllRotated, RotatedUpTo;
    if failed == [] {
      NothingLeftOver(job, tables[0], final, cursors[0]);
    } else {
      assert FailingRun(job, tables[0], tables[1], cursors[0], cursors[1], failed[0]);
      forall i | 0 <= i < |failed[1..]|
        ensures FailingRun(job, tables[1..][i], tables[1..][i + 1], cursors[1..][i], cursors[1..][i + 1], failed[1..][i])
      {
        assert FailingRun(job, tables[i + 1], tables[i + 2], cursors[i + 1], cursors[i + 2], failed[i + 1]);
      }
      ResumedLeaves(job, tables[1..], cursors[1..], failed[1..], final);
      OneMoreRun(job, tables[0], tables[1], final, cursors[0], cursors[1], failed[0], AllFailed(failed[1..]));
      LeftWereThere(job, tables[0], tables[1], cursors[0], cursors[1], failed[0], AllFailed(failed[1..]));
    }
  }

  lemma NothingLeftOver(job: Job, before: Table, after: Table, a: string)
    requires AllRotated(job, before, after, a)
    ensures RotatedBut(job, before, after, a, {})
  {
  }

  lemma LeftWereThere(job: Job, before: Table, after: Table, a: string, b: string, failed: set<string>, left: set<string>)
    requires FailingRun(job, before, after, a, b, failed)
    requires forall id :: id in left ==> Visible(after, id) && Above(id, b)
    ensures forall id :: id in left ==> Visible(before, id) && Above(id, a)
  {
    forall id | id in left ensures Visible(before, id) && Above(id, a) {
      if b != a { AboveTrans(a, b, id); }
    }
  }

  /** A rotation that took any number of interrupted runs, rows failing or not, and
      completes in the end has rotated everything past its first cursor exactly when
      no row an earlier run failed on held an old-key envelope. */
  lemma ResumedToCompletionIff(job: Job, tables: seq<Table>, cursors: seq<string>, failed: seq<set<string>>, final: Table)
    requires job.Valid() && job.oldKey != job.newKey
    requires FailingRuns(job, tables, cursors, failed)
    requires AllRotated(job, tables[|failed|], final, cursors[|failed|])
    ensures AllRotated(job, tables[0], final, cursors[0]) <==> NothingLeft(job, tables[0], failed)
  {
    hide AllRotated, FailingRun, HoldsOldKey, RotatedBut;
    ResumedLeaves(job, tables, cursors, failed, final);
    RotatedButIff(job, tables[0], final, cursors[0], AllFailed(failed));
    forall id ensures id in AllFailed(failed) <==> exists i :: 0 <= i < |failed| && id in failed[i] { AllFailedHas(failed, id); }
  }

  /** What the code reports of such a run: the rows it failed on, each of which does
      hold an old-key envelope. So a rotation resumed from an interrupted run is
      complete exactly when that run reported no failure. */
  lemma ReportedThenResumedIff(job: Job, t0: Table, t1: Table, t2: Table, a: string, r: Report)
    requires job.Valid() && job.oldKey != job.newKey
    requires RotatedUpTo(job, t0, t1, a, r.lastID, FailedRows(r.failures))
    requires r.lastID == a || (r.lastID != "" && Above(r.lastID, a))
    requires forall x :: x in r.failures ==>
               Visible(t0, x.rowID) && Passed(x.rowID, a, r.lastID) && HoldsOldKey(job, t0[x.rowID].data)
    requires AllRotated(job, t1, t2, r.lastID)
    ensures AllRotated(job, t0, t2, a) <==> r.failures == []
  {
    hide AllRotated, RotatedUpTo, HoldsOldKey;
    NothingLeftOver(job, t1, t2, r.lastID);
    FailedThenResumedIff(job, t0, t1, t2, a, r.lastID, FailedRows(r.failures));
    if r.failures != [] { assert r.failures[0] in r.failures && r.failures[0].rowID in FailedRows(r.failures); }
  }

  /** Two rotations of one table, by whatever runs, agree on every plaintext, key
      id, digest and other column of every row. */
  lemma RotationsAgree(job: Job, before: Table, s: Table, t: Table, a: string, id: string)
    requires job.Valid() && AllRotated(job, before, s, a) && AllRotated(job, before, t, a) && id in before
    ensures s[id].visible == t[id].visible && s[id].data.Keys == t[id].data.Keys
    ensures forall col :: col in s[id].data ==> ViewOf(job.kp, s[id].data[col]) == ViewOf(job.kp, t[id].data[col])
  {
    if before[id].visible && Above(id, a) {
      forall col | col in s[id].data ensures ViewOf(job.kp, s[id].data[col]) == ViewOf(job.kp, t[id].data[col]) {
        if RotatesColumn(job, before[id].data, col) {
          var f :| f in job.fields && f.dbName == col && job.Check(f, before[id].data).Rotate?;
        }
      }
    }
  }

  // ---- the cursor of a run stopped in its preflight -----------------------------------

  /** A run stopped during its preflight has written nothing, yet reports how far
      the preflight got. Resuming from that cursor rotates the whole range exactly
      when no visible row the preflight had passed holds an old-key envelope. */
  lemma ResumeAfterPreflightStopIff(job: Job, before: Table, final: Table, a: string, b: string)
    requires job.Valid() && job.oldKey != job.newKey
    requires b == a || (b != "" && Above(b, a))
    requires AllRotated(job, before, final, b)
    ensures AllRotated(job, before, final, a) <==>
            forall id :: Visible(before, id) && Passed(id, a, b) ==> !HoldsOldKey(job, before[id].data)
  {
    hide RotatedData, HoldsOldKey;
    forall id | Visible(before, id) && Passed(id, a, b)
      ensures RotatedData(job, before[id].data, final[id].data) <==> !HoldsOldKey(job, before[id].data)
    {
      UntouchedIsRotatedIff(job, before[id].data);
    }
    if forall id :: Visible(before, id) && Passed(id, a, b) ==> !HoldsOldKey(job, before[id].data) {
      forall id | id in before
        ensures if before[id].visible && Above(id, a)
                then final[id].visible && RotatedData(job, before[id].data, final[id].data)
                else final[id] == before[id]
      {
        if b != a && Above(id, b) { AboveTrans(a, b, id); }
      }
    }
  }

  // a two-key provider that names the key in an envelope's first character
  const TWO_KEYS := KeyProvider(
    (k: string, p: string, n: int) => if k == "old" then Some("o" + p) else if k == "new" then Some("n" + p) else None,
    (e: string) => if e != "" then Some(e[1..]) else None,
    (e: string) => if e == "" then None else if e[0] == 'o' then Some("old") else if e[0] == 'n' then Some("new") else None,
    (k: string, p: string) => Some(p),
    None,
    (b: string) => b,
    (s: string) => Some(s))

  const SECRET := Field("secret", false, "new")
  const SEALED := Text("enc:ohello")
  const ONE_ROW: Table := map["r1" := Record(true, map["secret" := SEALED])]

  lemma TwoKeysLawful()
    ensures TWO_KEYS.Lawful() && Apart([SECRET])
  {
    forall k, p, n | TWO_KEYS.encrypt(k, p, n).Some?
      ensures TWO_KEYS.decrypt(TWO_KEYS.encrypt(k, p, n).value) == Some(p)
      ensures TWO_KEYS.keyIDOf(TWO_KEYS.encrypt(k, p, n).value) == Some(k)
    {
      assert ("o" + p)[1..] == p && ("n" + p)[1..] == p;
    }
    assert "secret" != SECRET.Companion() by { assert |SECRET.Companion()| == 11; }
  }

  lemma OneRow(cursor: string)
    ensures VisibleAbove(ONE_ROW, "") == {"r1"}
    ensures |PassedRows(ONE_ROW, "", cursor)| >= 1 && (cursor == "" || Visible(ONE_ROW, cursor)) ==> cursor == "r1"
    ensures VisibleAbove(ONE_ROW, "r1") == {}
  {
    assert PassedRows(ONE_ROW, "", "") == {};
    LessIrreflexive("r1");
  }

  /** The code loses rows this way: a one-row table, a context cancelled after the
      preflight has read that row, a resume from the reported cursor that answers
      Complete, and the row still sealed with the old key. */
  method PreflightStopLosesTheRow() returns (first: Status, cursor: string, second: Status, complete: bool, left: Cell)
    ensures first == PreflightStopped(Interrupted) && cursor == "r1"
    ensures second == Complete && complete
    ensures left == SEALED && ViewOf(TWO_KEYS, left) == Sealed(Some("old"), Some("hello"))
  {
    var adapter := new Adapter(ONE_ROW, true);
    TwoKeysLawful();
    OneRow("");
    var ctx := new Context(2);
    var report;
    first, report := RotateEncryptionKey(ctx, adapter, TWO_KEYS, [SECRET], "old", "new", "", 1);
    cursor := report.lastID;
    OneRow(cursor);
    ctx := new Context(10);
    assert forall id :: id in VisibleAbove(ONE_ROW, "r1") <==> Visible(ONE_ROW, id) && Above(id, "r1");
    assert AllClean(JobOf(TWO_KEYS, [SECRET], "old", "new"), ONE_ROW, "r1");
    second, report := RotateEncryptionKey(ctx, adapter, TWO_KEYS, [SECRET], "old", "new", cursor, 1);
    complete := report.complete;
    left := adapter.rows["r1"].data["secret"];
    assert SEALED.s[4..] == "ohello";
  }
}
