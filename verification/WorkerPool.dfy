/** Computed fields over a bounded worker pool: every schedule of the sender, the
    unbuffered channel and the workers ends with the rows a sequential pass gives. */
module WorkerPool {
  import opened Wrappers

  const MAX_CONCURRENCY := 8

  type Row = map<string, int>
  type Record = int

  /** How one callback ends. */
  datatype Call = Value(v: int) | Error | Panic

  /** A field's callback reads the record when it takes one, else the row as the
      earlier fields left it. */
  datatype ComputedField = ComputedField(name: string, recordFn: Option<Option<Record> -> Call>, fn: Row -> Call)

  function RecordAt(records: seq<Record>, i: nat): Option<Record> {
    if i < |records| then Some(records[i]) else None
  }

  /** A panic is turned into an error. */
  function CallComputed(c: ComputedField, record: Option<Record>, row: Row): Option<int> {
    match (match c.recordFn case Some(f) => f(record) case None => c.fn(row))
    case Value(v) => Some(v)
    case Error => None
    case Panic => None
  }

  // ---- one row ---------------------------------------------------------------------

  /** The row after the first j fields; a field that fails is left as it was. */
  function RowAfter(fields: seq<ComputedField>, record: Option<Record>, row: Row, j: nat): Row
    requires j <= |fields|
  {
    if j == 0 then row
    else
      var prev := RowAfter(fields, record, row, j - 1);
      match CallComputed(fields[j - 1], record, prev)
      case None => prev
      case Some(v) => prev[fields[j - 1].name := v]
  }

  function Computed(fields: seq<ComputedField>, records: seq<Record>, rows: seq<Row>, i: nat): Row
    requires i < |rows|
  {
    RowAfter(fields, RecordAt(records, i), rows[i], |fields|)
  }

  method ComputeRow(fields: seq<ComputedField>, record: Option<Record>, rows: array<Row>, i: nat)
    requires i < rows.Length
    modifies rows
    ensures rows[..] == old(rows[..])[i := RowAfter(fields, record, old(rows[i]), |fields|)]
  {
    var j := 0;
    while j < |fields|
      invariant 0 <= j <= |fields|
      invariant rows[..] == old(rows[..])[i := RowAfter(fields, record, old(rows[i]), j)]
    {
      var c := fields[j];
      assert rows[i] == rows[..][i];
      var v := CallComputed(c, record, rows[i]);
      if v.Some? { rows[i] := rows[i][c.name := v.value]; }
      j := j + 1;
    }
  }

  /** Fields may be omitted, never invented or misplaced: whatever the callbacks do,
      only computed columns can differ, and a field whose own call fails keeps what
      the row held before unless another field has its name. */
  lemma {:induction false} OnlyComputedColumnsChange(fields: seq<ComputedField>, record: Option<Record>, row: Row, j: nat, k: string)
    requires j <= |fields| && forall i :: 0 <= i < j ==> fields[i].name == k ==> CallComputed(fields[i], record, RowAfter(fields, record, row, i)).None?
    ensures var after := RowAfter(fields, record, row, j);
            (k in after <==> k in row) && (k in row ==> after[k] == row[k])
  {
    if j > 0 { OnlyComputedColumnsChange(fields, record, row, j - 1, k); }
  }

  /** The column of the last field with a name holds what that field's callback returned,
      the record callback when there is one; when it returned an error or panicked, what
      the row held before. */
  lemma {:induction false} ColumnIsItsCallback(fields: seq<ComputedField>, record: Option<Record>, row: Row, i: nat, j: nat)
    requires i < j <= |fields| && forall l :: i < l < j ==> fields[l].name != fields[i].name
    ensures var before, after, k := RowAfter(fields, record, row, i), RowAfter(fields, record, row, j), fields[i].name;
            var call := if fields[i].recordFn.Some? then fields[i].recordFn.value(record) else fields[i].fn(before);
            match call
            case Value(v) => k in after && after[k] == v
            case Error => (k in after <==> k in before) && (k in before ==> after[k] == before[k])
            case Panic => (k in after <==> k in before) && (k in before ==> after[k] == before[k])
  {
    if i + 1 < j { ColumnIsItsCallback(fields, record, row, i, j - 1); }
  }

  /** So in the rows of a whole pass, each callback given the record of its own row. */
  lemma ComputedColumn(fields: seq<ComputedField>, records: seq<Record>, rows: seq<Row>, r: nat, i: nat)
    requires r < |rows| && i < |fields| && forall l :: i < l < |fields| ==> fields[l].name != fields[i].name
    ensures var row, k := Computed(fields, records, rows, r), fields[i].name;
            var record := if r < |records| then Some(records[r]) else None;
            var before := RowAfter(fields, record, rows[r], i);
            match (if fields[i].recordFn.Some? then fields[i].recordFn.value(record) else fields[i].fn(before))
            case Value(v) => k in row && row[k] == v
            case _ => (k in row <==> k in before) && (k in before ==> row[k] == before[k])
  {
    ColumnIsItsCallback(fields, RecordAt(records, r), rows[r], i, |fields|);
  }

  // ---- the pool as a step machine ------------------------------------------------------

  /** A worker blocked on the channel, part way through row i, or gone. */
  datatype Worker = Receiving | Computing(i: nat, j: nat) | Exited

  datatype Pool = Pool(next: nat, closed: bool, workers: seq<Worker>, rows: seq<Row>, handed: seq<nat>)

  datatype Event = Handoff(w: nat) | Compute(w: nat) | CloseChannel | Exit(w: nat)

  datatype Job = Job(fields: seq<ComputedField>, records: seq<Record>, rows: seq<Row>)

  predicate Enabled(job: Job, p: Pool, e: Event) {
    match e
    case Handoff(w) => w < |p.workers| && p.workers[w].Receiving? && p.next < |p.rows|
    case Compute(w) => w < |p.workers| && p.workers[w].Computing? && p.workers[w].i < |p.rows|
    case CloseChannel => p.next == |p.rows| && !p.closed
    case Exit(w) => w < |p.workers| && p.workers[w].Receiving? && p.closed
  }

  function ComputeOne(job: Job, i: nat, j: nat, row: Row): Row
    requires j < |job.fields|
  {
    match CallComputed(job.fields[j], RecordAt(job.records, i), row) case None => row case Some(v) => row[job.fields[j].name := v]
  }

  function Apply(job: Job, p: Pool, e: Event): Pool
    requires Enabled(job, p, e)
  {
    match e
    case Handoff(w) => p.(next := p.next + 1, workers := p.workers[w := Computing(p.next, 0)], handed := p.handed + [p.next])
    case Compute(w) =>
      var i, j := p.workers[w].i, p.workers[w].j;
      if j < |job.fields|
      then p.(rows := p.rows[i := ComputeOne(job, i, j, p.rows[i])], workers := p.workers[w := Computing(i, j + 1)])
      else p.(workers := p.workers[w := Receiving])
    case CloseChannel => p.(closed := true)
    case Exit(w) => p.(workers := p.workers[w := Exited])
  }

  function PoolSize(n: nat): nat {
    if n < MAX_CONCURRENCY then n else MAX_CONCURRENCY
  }

  function Start(job: Job): Pool {
    Pool(0, false, seq(PoolSize(|job.rows|), _ => Receiving), job.rows, [])
  }

  /** wg.Wait returns. */
  predicate Finished(p: Pool) {
    p.closed && forall w :: 0 <= w < |p.workers| ==> p.workers[w].Exited?
  }

  // ---- what every step keeps ---------------------------------------------------------------

  ghost predicate BusyOn(p: Pool, w: nat, i: nat) {
    w < |p.workers| && p.workers[w].Computing? && p.workers[w].i == i
  }

  /** Row i is untouched, part way, or done. */
  ghost predicate RowState(job: Job, p: Pool, i: nat)
    requires |p.rows| == |job.rows| && i < |p.rows|
  {
    && (i >= p.next ==> p.rows[i] == job.rows[i])
    && (i < p.next && (forall w :: !BusyOn(p, w, i)) ==> p.rows[i] == Computed(job.fields, job.records, job.rows, i))
  }

  /** A busy worker has a row of its own, and has filled its fields so far. */
  ghost predicate WorkerState(job: Job, p: Pool, w: nat)
    requires |p.rows| == |job.rows| && w < |p.workers|
  {
    p.workers[w].Computing? ==>
      && p.workers[w].i < p.next <= |p.rows| && p.workers[w].j <= |job.fields|
      && p.rows[p.workers[w].i] == RowAfter(job.fields, RecordAt(job.records, p.workers[w].i), job.rows[p.workers[w].i], p.workers[w].j)
      && (forall v :: BusyOn(p, v, p.workers[w].i) ==> v == w)
  }

  ghost predicate Inv(job: Job, p: Pool) {
    && |p.rows| == |job.rows| && p.next <= |p.rows| && |p.workers| == PoolSize(|job.rows|)
    && p.handed == seq(p.next, i => i)
    && (p.closed ==> p.next == |p.rows|)
    && (forall w :: 0 <= w < |p.workers| && p.workers[w].Exited? ==> p.closed)
    && (forall w :: 0 <= w < |p.workers| ==> WorkerState(job, p, w))
    && (forall i :: 0 <= i < |p.rows| ==> RowState(job, p, i))
  }

  lemma StartInv(job: Job)
    ensures Inv(job, Start(job))
  {
  }

  lemma HandoffKeeps(job: Job, p: Pool, w: nat)
    requires Inv(job, p) && Enabled(job, p, Handoff(w))
    ensures Inv(job, Apply(job, p, Handoff(w)))
  {
    var p' := Apply(job, p, Handoff(w));
    assert p'.handed == seq(p'.next, i => i);
    assert RowState(job, p, p.next);
    forall v, i | BusyOn(p', v, i) ensures v == w || BusyOn(p, v, i) {}
    forall v | 0 <= v < |p'.workers| ensures WorkerState(job, p', v) {
      assert WorkerState(job, p, v);
      if p'.workers[v].Computing? {
        forall u | BusyOn(p', u, p'.workers[v].i) ensures u == v {
          assert WorkerState(job, p, u);
          if u != w && v != w { assert BusyOn(p, u, p.workers[v].i); }
        }
      }
    }
    forall i | 0 <= i < |p'.rows| ensures RowState(job, p', i) {
      assert RowState(job, p, i);
      if i == p.next { assert BusyOn(p', w, i); }
      if i < p.next && (forall v :: !BusyOn(p', v, i)) { OthersBusyBefore(p, p', w, i); }
    }
  }

  lemma OthersBusyBefore(p: Pool, p': Pool, w: nat, i: nat)
    requires |p.workers| == |p'.workers| && w < |p.workers| && forall v :: 0 <= v < |p.workers| && v != w ==> p'.workers[v] == p.workers[v]
    requires (forall v :: !BusyOn(p', v, i)) && !BusyOn(p, w, i)
    ensures forall v :: !BusyOn(p, v, i)
  {
    forall v ensures !BusyOn(p, v, i) {
      if BusyOn(p, v, i) { assert BusyOn(p', v, i); }
    }
  }

  lemma ComputeKeeps(job: Job, p: Pool, w: nat)
    requires Inv(job, p) && Enabled(job, p, Compute(w))
    ensures Inv(job, Apply(job, p, Compute(w)))
  {
    var p' := Apply(job, p, Compute(w));
    var i, j := p.workers[w].i, p.workers[w].j;
    assert WorkerState(job, p, w) && BusyOn(p, w, i);
    forall v | 0 <= v < |p'.workers| ensures WorkerState(job, p', v) {
      assert WorkerState(job, p, v);
      if p'.workers[v].Computing? {
        assert v != w ==> p.workers[v].i != i by { if v != w && p.workers[v].i == i { assert BusyOn(p, v, i); assert false; } }
        forall u | BusyOn(p', u, p'.workers[v].i) ensures u == v { assert BusyOn(p, u, p.workers[v].i); }
      }
    }
    forall k | 0 <= k < |p'.rows| ensures RowState(job, p', k) {
      assert RowState(job, p, k);
      if k == i {
        if j < |job.fields| { assert BusyOn(p', w, i); }
      } else if forall v :: !BusyOn(p', v, k) {
        OthersBusyBefore(p, p', w, k);
      }
    }
  }

  lemma QuietStepKeeps(job: Job, p: Pool, e: Event)
    requires Inv(job, p) && Enabled(job, p, e) && (e.CloseChannel? || e.Exit?)
    ensures Inv(job, Apply(job, p, e))
  {
    var p' := Apply(job, p, e);
    forall v, i ensures BusyOn(p', v, i) <==> BusyOn(p, v, i) {}
    forall v | 0 <= v < |p'.workers| ensures WorkerState(job, p', v) { assert WorkerState(job, p, v); }
    forall i | 0 <= i < |p'.rows| ensures RowState(job, p', i) { assert RowState(job, p, i); }
  }

  lemma StepKeepsInv(job: Job, p: Pool, e: Event)
    requires Inv(job, p) && Enabled(job, p, e)
    ensures Inv(job, Apply(job, p, e))
  {
    match e {
      case Handoff(w) => HandoffKeeps(job, p, w);
      case Compute(w) => ComputeKeeps(job, p, w);
      case CloseChannel => QuietStepKeeps(job, p, e);
      case Exit(w) => QuietStepKeeps(job, p, e);
    }
  }

  // ---- the result and the end ------------------------------------------------------------------

  /** Once the pool has finished, every row index was handed out exactly once, in
      order, and every row is what the sequential pass computes. */
  lemma FinishedIsSequential(job: Job, p: Pool)
    requires Inv(job, p) && Finished(p)
    ensures p.handed == seq(|job.rows|, i => i)
    ensures |p.rows| == |job.rows| && forall i :: 0 <= i < |p.rows| ==> p.rows[i] == Computed(job.fields, job.records, job.rows, i)
  {
    forall i | 0 <= i < |p.rows| ensures p.rows[i] == Computed(job.fields, job.records, job.rows, i) {
      assert RowState(job, p, i);
      forall w ensures !BusyOn(p, w, i) {}
    }
  }

  function Busy(ws: seq<Worker>): nat {
    if ws == [] then 0 else (if ws[0].Computing? then 1 else 0) + Busy(ws[1..])
  }

  /** As many workers as rows but no more than eight: so many rows at most are under way,
      and no row under two workers. */
  lemma {:induction false} AtMostEight(job: Job, p: Pool)
    requires Inv(job, p)
    ensures Busy(p.workers) <= |p.workers| && |p.workers| == if |job.rows| < 8 then |job.rows| else 8
    ensures forall v, w, i :: BusyOn(p, v, i) && BusyOn(p, w, i) ==> v == w
  {
    BusyBounded(p.workers);
    forall v, w, i | BusyOn(p, v, i) && BusyOn(p, w, i) ensures v == w { assert WorkerState(job, p, w); }
  }

  lemma {:induction false} BusyBounded(ws: seq<Worker>)
    ensures Busy(ws) <= |ws|
  {
    if ws != [] { BusyBounded(ws[1..]); }
  }

  /** Nobody waits for ever: until the pool has finished, some step can be taken. */
  lemma NeverStuck(job: Job, p: Pool) returns (e: Event)
    requires Inv(job, p) && !Finished(p)
    ensures Enabled(job, p, e)
  {
    if w: nat :| w < |p.workers| && p.workers[w].Computing? {
      assert WorkerState(job, p, w);
      return Compute(w);
    }
    if p.next < |p.rows| {
      assert |p.workers| > 0 && p.workers[0].Receiving?;
      return Handoff(0);
    }
    if !p.closed { return CloseChannel; }
    var w: nat :| w < |p.workers| && !p.workers[w].Exited?;
    return Exit(w);
  }

  function Work(fields: nat, w: Worker): nat {
    match w case Receiving => 1 case Computing(_, j) => if j <= fields then fields - j + 2 else 0 case Exited => 0
  }

  function TotalWork(fields: nat, ws: seq<Worker>): nat {
    if ws == [] then 0 else Work(fields, ws[0]) + TotalWork(fields, ws[1..])
  }

  lemma {:induction false} TotalUpdate(fields: nat, ws: seq<Worker>, w: nat, x: Worker)
    requires w < |ws|
    ensures TotalWork(fields, ws[w := x]) == TotalWork(fields, ws) - Work(fields, ws[w]) + Work(fields, x)
  {
    if w > 0 {
      assert ws[w := x][1..] == ws[1..][w - 1 := x];
      TotalUpdate(fields, ws[1..], w - 1, x);
    } else {
      assert ws[w := x][1..] == ws[1..];
    }
  }

  function Measure(job: Job, p: Pool): int {
    (|p.rows| - p.next) * (|job.fields| + 2) + TotalWork(|job.fields|, p.workers) + if p.closed then 0 else 1
  }

  lemma StepProgresses(job: Job, p: Pool, e: Event)
    requires Inv(job, p) && Enabled(job, p, e)
    ensures 0 <= Measure(job, Apply(job, p, e)) < Measure(job, p)
  {
    hide Inv;
    var n := |job.fields|;
    StepKeepsRoom(job, p, e);
    MeasureNatural(job, Apply(job, p, e));
    match e {
      case Handoff(w) =>
        TotalUpdate(n, p.workers, w, Computing(p.next, 0));
        assert (|p.rows| - p.next) * (n + 2) == (|p.rows| - (p.next + 1)) * (n + 2) + (n + 2);
      case Compute(w) =>
        InvBounds(job, p, w);
        TotalUpdate(n, p.workers, w, Apply(job, p, e).workers[w]);
      case CloseChannel =>
      case Exit(w) => TotalUpdate(n, p.workers, w, Exited);
    }
  }

  lemma InvBounds(job: Job, p: Pool, w: nat)
    requires Inv(job, p) && w < |p.workers| && p.workers[w].Computing?
    ensures p.workers[w].j <= |job.fields|
  {
    assert WorkerState(job, p, w);
  }

  lemma StepKeepsRoom(job: Job, p: Pool, e: Event)
    requires Inv(job, p) && Enabled(job, p, e)
    ensures |p.rows| == |Apply(job, p, e).rows| && Apply(job, p, e).next <= |p.rows| && p.next <= |p.rows|
  {
  }

  lemma MeasureNatural(job: Job, p: Pool)
    requires p.next <= |p.rows|
    ensures Measure(job, p) >= 0
  {
    assert (|p.rows| - p.next) * (|job.fields| + 2) >= 0;
  }

  /** Runs the pool under an arbitrary schedule: it comes to an end, and with the
      rows of a sequential pass. A single row skips the pool. */
  method ApplyPerRowComputed(fields: seq<ComputedField>, records: seq<Record>, rows: array<Row>)
    modifies rows
    ensures forall i :: 0 <= i < rows.Length ==> rows[i] == Computed(fields, records, old(rows[..]), i)
  {
    if rows.Length == 1 {
      ComputeRow(fields, RecordAt(records, 0), rows, 0);
      assert rows[0] == rows[..][0];
      return;
    }
    ghost var job := Job(fields, records, rows[..]);
    ghost var p := Start(job);
    StartInv(job);
    var next, closed, workers := 0, false, seq(PoolSize(rows.Length), _ => Receiving);
    while !closed || exists w :: 0 <= w < |workers| && !workers[w].Exited?
      invariant p == Pool(next, closed, workers, rows[..], p.handed) && Inv(job, p)
      decreases Measure(job, p)
    {
      ghost var some := NeverStuck(job, p);
      MeasureNatural(job, p);
      assert EnabledNow(next, closed, workers, rows.Length, some);
      var e: Event :| EnabledNow(next, closed, workers, rows.Length, e);
      NowIsEnabled(job, p, e);
      ghost var p' := Apply(job, p, e);
      StepKeepsInv(job, p, e);
      StepProgresses(job, p, e);
      match e {
        case Handoff(w) => workers, next := workers[w := Computing(next, 0)], next + 1;
        case Compute(w) =>
          var i, j := workers[w].i, workers[w].j;
          assert rows[i] == rows[..][i];
          if j < |fields| {
            var v := CallComputed(fields[j], RecordAt(records, i), rows[i]);
            if v.Some? { rows[i] := rows[i][fields[j].name := v.value]; }
            workers := workers[w := Computing(i, j + 1)];
          } else {
            workers := workers[w := Receiving];
          }
        case CloseChannel => closed := true;
        case Exit(w) => workers := workers[w := Exited];
      }
      assert rows[..] == p'.rows;
      p := p';
    }
    FinishedIsSequential(job, p);
    forall i | 0 <= i < rows.Length ensures rows[i] == Computed(fields, records, old(rows[..]), i) {
      assert rows[i] == p.rows[i];
    }
  }

  predicate EnabledNow(next: nat, closed: bool, workers: seq<Worker>, n: nat, e: Event) {
    match e
    case Handoff(w) => w < |workers| && workers[w].Receiving? && next < n
    case Compute(w) => w < |workers| && workers[w].Computing?
    case CloseChannel => next == n && !closed
    case Exit(w) => w < |workers| && workers[w].Receiving? && closed
  }

  lemma NowIsEnabled(job: Job, p: Pool, e: Event)
    requires Inv(job, p) && EnabledNow(p.next, p.closed, p.workers, |p.rows|, e)
    ensures Enabled(job, p, e)
  {
    if e.Compute? { assert WorkerState(job, p, e.w); }
  }
}
