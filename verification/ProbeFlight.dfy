/** The probe single-flight as a step machine: any number of requests, every
    interleaving of their accesses to the mutex, the current flight and its channel. */
module ProbeFlight {
  import opened Wrappers

  /** What the dependency check ended with. */
  datatype Outcome<T> = Value(v: T) | Panic(p: string)

  /** Where a request is in do. The flight it is on is named by the request that
      opened it. Starred places hold the mutex. */
  datatype Place<T> =
    | Arriving
    | Looking                       // *
    | Joining(flight: nat)          // * has read the current flight
    | Waiting(flight: nat)          // on the flight's channel
    | Opening                       // * has stored its own flight as current
    | Working
    | Finished                      // the outcome is in the flight
    | Releasing                     // *
    | Cleared                       // * has set current to nil
    | Closing                       // about to close the channel
    | Returned(flight: nat, outcome: Outcome<T>)

  /** One flight: how often its work ran, what it left, whether it was released and
      its channel closed. */
  datatype Flight<T> = Flight(runs: nat, outcome: Option<Outcome<T>>, released: bool, closed: bool)

  datatype State<T> = State(
    places: seq<Place<T>>,
    mutex: Option<nat>,
    current: Option<nat>,
    flights: map<nat, Flight<T>>)

  predicate HoldsMutex<T>(p: Place<T>) {
    p.Looking? || p.Joining? || p.Opening? || p.Releasing? || p.Cleared?
  }

  predicate Init<T>(s: State<T>) {
    && (forall t :: 0 <= t < |s.places| ==> s.places[t].Arriving?)
    && s.mutex == None && s.current == None && s.flights == map[]
  }

  function Move<T>(s: State<T>, t: nat, p: Place<T>): State<T>
    requires t < |s.places|
  {
    s.(places := s.places[t := p])
  }

  /** Request t takes its next step; out is what the work produces, when t is the
      one that runs it. */
  predicate CanStep<T>(s: State<T>, t: nat) {
    && t < |s.places|
    && match s.places[t]
       case Arriving => s.mutex == None
       case Finished => s.mutex == None
       case Waiting(f) => f in s.flights && s.flights[f].closed && s.flights[f].outcome.Some?
       case Returned(_, _) => false
       case Joining(_) => true
       case Looking => true
       case Opening => true
       case _ => t in s.flights
  }

  function Step<T>(s: State<T>, t: nat, out: Outcome<T>): State<T>
    requires CanStep(s, t)
  {
    match s.places[t]
    case Arriving => Move(s, t, Looking).(mutex := Some(t))
    case Looking =>
      if s.current.Some? then Move(s, t, Joining(s.current.value))
      else Move(s, t, Opening).(current := Some(t), flights := s.flights[t := Flight(0, None, false, false)])
    case Joining(f) => Move(s, t, Waiting(f)).(mutex := None)
    case Waiting(f) => Move(s, t, Returned(f, s.flights[f].outcome.value))
    case Opening => Move(s, t, Working).(mutex := None)
    case Working =>
      var f := s.flights[t];
      Move(s, t, Finished).(flights := s.flights[t := f.(runs := f.runs + 1, outcome := Some(out))])
    case Finished => Move(s, t, Releasing).(mutex := Some(t))
    case Releasing => Move(s, t, Cleared).(current := None, flights := s.flights[t := s.flights[t].(released := true)])
    case Cleared => Move(s, t, Closing).(mutex := None)
    case Closing =>
      var f := s.flights[t];
      Move(s, t, match f.outcome case Some(o) => Returned(t, o) case None => Closing).(flights := s.flights[t := f.(closed := true)])
    case Returned(_, _) => s
  }

  // ---- what every step keeps ------------------------------------------------------------

  /** The flight a request opened, by how far the request has got. */
  ghost predicate OwnFlight<T>(s: State<T>, t: nat)
    requires t < |s.places|
  {
    match s.places[t]
    case Opening => t in s.flights && s.flights[t] == Flight(0, None, false, false)
    case Working => t in s.flights && s.flights[t] == Flight(0, None, false, false)
    case Finished => t in s.flights && s.flights[t].outcome.Some? && s.flights[t] == Flight(1, s.flights[t].outcome, false, false)
    case Releasing => t in s.flights && s.flights[t].outcome.Some? && s.flights[t] == Flight(1, s.flights[t].outcome, false, false)
    case Cleared => t in s.flights && s.flights[t].outcome.Some? && s.flights[t] == Flight(1, s.flights[t].outcome, true, false)
    case Closing => t in s.flights && s.flights[t].outcome.Some? && s.flights[t] == Flight(1, s.flights[t].outcome, true, false)
    case Returned(f, o) =>
      && f in s.flights && s.flights[f] == Flight(1, Some(o), true, true)
      && (t in s.flights ==> f == t)
    case Joining(f) => t !in s.flights && f in s.flights && f != t
    case Waiting(f) => t !in s.flights && f in s.flights && f != t
    case _ => t !in s.flights
  }

  ghost predicate FlightsOwned<T>(s: State<T>) {
    && (forall t :: 0 <= t < |s.places| ==> OwnFlight(s, t))
    && (forall f :: f in s.flights ==> f < |s.places|)
  }

  ghost predicate MutexHeld<T>(s: State<T>) {
    && (forall t :: 0 <= t < |s.places| ==> (HoldsMutex(s.places[t]) <==> s.mutex == Some(t)))
    && (s.mutex.Some? ==> s.mutex.value < |s.places|)
  }

  /** The current flight is the one flight not yet released. */
  ghost predicate CurrentIsOpen<T>(s: State<T>) {
    forall f: nat :: f in s.flights && !s.flights[f].released <==> s.current == Some(f)
  }

  ghost predicate Inv<T>(s: State<T>) {
    FlightsOwned(s) && MutexHeld(s) && CurrentIsOpen(s)
  }

  lemma InitInv<T>(s: State<T>)
    requires Init(s)
    ensures Inv(s)
  {
  }

  lemma StepKeepsMutex<T>(s: State<T>, t: nat, out: Outcome<T>)
    requires MutexHeld(s) && FlightsOwned(s) && CanStep(s, t)
    ensures MutexHeld(Step(s, t, out))
  {
    assert OwnFlight(s, t);
  }

  lemma StepKeepsCurrent<T>(s: State<T>, t: nat, out: Outcome<T>)
    requires Inv(s) && CanStep(s, t)
    ensures CurrentIsOpen(Step(s, t, out))
  {
    assert OwnFlight(s, t);
  }

  /** No step changes what another request relies on. */
  lemma StepKeepsOthers<T>(s: State<T>, t: nat, out: Outcome<T>, u: nat)
    requires Inv(s) && CanStep(s, t) && u < |s.places| && u != t
    ensures OwnFlight(Step(s, t, out), u)
  {
    hide MutexHeld;
    assert OwnFlight(s, t) && OwnFlight(s, u);
  }

  lemma StepKeepsOwn<T>(s: State<T>, t: nat, out: Outcome<T>)
    requires Inv(s) && CanStep(s, t)
    ensures OwnFlight(Step(s, t, out), t)
  {
    hide MutexHeld;
    assert OwnFlight(s, t);
    if s.places[t].Waiting? { assert OwnFlight(s, s.places[t].flight); }
  }

  lemma StepKeepsInv<T>(s: State<T>, t: nat, out: Outcome<T>)
    requires Inv(s) && CanStep(s, t)
    ensures Inv(Step(s, t, out)) && |Step(s, t, out).places| == |s.places|
  {
    hide OwnFlight, MutexHeld, CurrentIsOpen;
    var s' := Step(s, t, out);
    StepKeepsMutex(s, t, out);
    StepKeepsCurrent(s, t, out);
    StepKeepsOwn(s, t, out);
    forall u | 0 <= u < |s'.places| ensures OwnFlight(s', u) {
      if u != t { StepKeepsOthers(s, t, out, u); }
    }
  }

  /** A run: the states it goes through, which request steps between them, and what
      its work would produce there. */
  ghost predicate Run<T>(states: seq<State<T>>, steps: seq<(nat, Outcome<T>)>) {
    && |states| == |steps| + 1 && Init(states[0])
    && forall i :: 0 <= i < |steps| ==> CanStep(states[i], steps[i].0) && states[i + 1] == Step(states[i], steps[i].0, steps[i].1)
  }

  lemma {:induction false} RunKeepsInv<T>(states: seq<State<T>>, steps: seq<(nat, Outcome<T>)>, i: nat)
    requires Run(states, steps) && i < |states|
    ensures Inv(states[i]) && |states[i].places| == |states[0].places|
  {
    hide Inv, Init, Step, CanStep;
    if i == 0 {
      InitInv(states[0]);
    } else {
      RunKeepsInv(states, steps, i - 1);
      StepKeepsInv(states[i - 1], steps[i - 1].0, steps[i - 1].1);
    }
  }

  // ---- safety, at every moment of every run ------------------------------------------------

  predicate Open<T>(s: State<T>, f: nat) {
    f in s.flights && !s.flights[f].released
  }

  /** At most one flight is open; its work has run at most once, and exactly once
      when anybody has returned from it; everybody who returned from a flight has the
      same outcome, the one its work left. */
  lemma FlightsAreShared<T>(states: seq<State<T>>, steps: seq<(nat, Outcome<T>)>, i: nat)
    requires Run(states, steps) && i < |states|
    ensures var s := states[i];
            && (forall f: nat, g: nat :: Open(s, f) && Open(s, g) ==> f == g)
            && (forall f :: f in s.flights ==> s.flights[f].runs <= 1)
            && (forall t :: 0 <= t < |s.places| && s.places[t].Returned? ==>
                  && s.places[t].flight in s.flights
                  && s.flights[s.places[t].flight].runs == 1
                  && s.flights[s.places[t].flight].outcome == Some(s.places[t].outcome))
  {
    RunKeepsInv(states, steps, i);
    var s := states[i];
    forall f: nat, g: nat | Open(s, f) && Open(s, g) ensures f == g {
      assert s.current == Some(f) && s.current == Some(g);
    }
    forall f | f in s.flights ensures s.flights[f].runs <= 1 { assert OwnFlight(s, f); }
    forall t | 0 <= t < |s.places| && s.places[t].Returned?
      ensures s.places[t].flight in s.flights && s.flights[s.places[t].flight].runs == 1
              && s.flights[s.places[t].flight].outcome == Some(s.places[t].outcome)
    {
      assert OwnFlight(s, t);
    }
  }

  /** Everybody who returned from one flight returned the same thing. */
  lemma ParticipantsAgree<T>(states: seq<State<T>>, steps: seq<(nat, Outcome<T>)>, i: nat, t: nat, u: nat)
    requires Run(states, steps) && i < |states| && t < |states[i].places| && u < |states[i].places|
    requires states[i].places[t].Returned? && states[i].places[u].Returned?
    requires states[i].places[t].flight == states[i].places[u].flight
    ensures states[i].places[t].outcome == states[i].places[u].outcome
  {
    FlightsAreShared(states, steps, i);
  }

  /** A request joins only a flight that has not been released, and it clears only
      its own. */
  lemma NoLateJoinNoStrayRelease<T>(states: seq<State<T>>, steps: seq<(nat, Outcome<T>)>, i: nat, t: nat)
    requires Run(states, steps) && i < |steps| && t == steps[i].0
    ensures states[i + 1].places[t].Joining? ==> Open(states[i], states[i + 1].places[t].flight) && states[i + 1].places[t].flight != t
    ensures states[i].current.Some? && states[i + 1].current != states[i].current ==>
              states[i].current == Some(t) && states[i].places[t].Releasing? && states[i].flights[t].outcome.Some?
  {
    RunKeepsInv(states, steps, i);
    var s := states[i];
    assert OwnFlight(s, t);
    if s.current.Some? { assert Open(s, s.current.value); }
    if s.places[t].Releasing? { assert s.current == Some(t); }
  }

  /** A request may look for a flight whenever nobody else is at the same business. */
  lemma MayArrive<T>(states: seq<State<T>>, steps: seq<(nat, Outcome<T>)>, i: nat, t: nat)
    requires Run(states, steps) && i < |states| && t < |states[i].places| && states[i].places[t].Arriving?
    ensures CanStep(states[i], t) <==> forall u :: 0 <= u < |states[i].places| ==> !HoldsMutex(states[i].places[u])
  {
    RunKeepsInv(states, steps, i);
    var s := states[i];
    if s.mutex.Some? { assert HoldsMutex(s.places[s.mutex.value]); }
  }

  /** Whoever looks while a flight is open joins it and starts no work of its own; whoever
      looks while none is open opens one. */
  lemma LookingDecides<T>(states: seq<State<T>>, steps: seq<(nat, Outcome<T>)>, i: nat, t: nat)
    requires Run(states, steps) && i < |steps| && t == steps[i].0 && t < |states[i].places| && states[i].places[t].Looking?
    ensures var s, s' := states[i], states[i + 1];
            && (forall f: nat :: Open(s, f) ==> s'.places[t] == Joining(f) && s'.flights == s.flights)
            && ((forall f: nat :: !Open(s, f)) ==> s'.places[t] == Opening && Open(s', t) && s'.flights == s.flights[t := Flight(0, None, false, false)])
  {
    RunKeepsInv(states, steps, i);
    var s := states[i];
    forall f: nat | Open(s, f) ensures s.current == Some(f) {}
    if s.current.Some? { assert Open(s, s.current.value); }
  }

  /** On flight f, or about to join it. */
  predicate Bound<T>(p: Place<T>, f: nat) {
    p == Joining(f) || p == Waiting(f) || (p.Returned? && p.flight == f)
  }

  predicate LooksAt<T>(s: State<T>, t: nat, f: nat) {
    t < |s.places| && s.places[t].Looking? && Open(s, f)
  }

  lemma StaysBound<T>(s: State<T>, t: nat, f: nat, u: nat, out: Outcome<T>)
    requires Inv(s) && CanStep(s, u) && t < |s.places|
    requires LooksAt(s, t, f) || Bound(s.places[t], f)
    ensures var s' := Step(s, u, out); LooksAt(s', t, f) || Bound(s'.places[t], f)
  {
    assert OwnFlight(s, u) && OwnFlight(s, t);
    if LooksAt(s, t, f) {
      assert HoldsMutex(s.places[t]) && s.current == Some(f);
    }
  }

  /** A request that looked while a flight was open returns, whenever it does, from that
      flight: the outcome is the one its opener's single run of the work produced. */
  lemma {:induction false} LookersShare<T>(states: seq<State<T>>, steps: seq<(nat, Outcome<T>)>, i: nat, t: nat, f: nat, k: nat)
    requires Run(states, steps) && i <= k < |states| && t < |states[i].places|
    requires states[i].places[t].Looking? && Open(states[i], f)
    ensures t < |states[k].places| && (LooksAt(states[k], t, f) || Bound(states[k].places[t], f))
    ensures states[k].places[t].Returned? ==>
              && states[k].places[t].flight == f
              && f in states[k].flights && states[k].flights[f].runs == 1
              && states[k].flights[f].outcome == Some(states[k].places[t].outcome)
  {
    hide Inv, Init, Step, CanStep;
    if i < k {
      LookersShare(states, steps, i, t, f, k - 1);
      RunKeepsInv(states, steps, k - 1);
      StaysBound(states[k - 1], t, f, steps[k - 1].0, steps[k - 1].1);
      StepKeepsInv(states[k - 1], steps[k - 1].0, steps[k - 1].1);
    }
    if states[k].places[t].Returned? { FlightsAreShared(states, steps, k); }
  }

  /** The outcome a flight holds is what its own opener's work produced. */
  lemma {:induction false} OutcomeWasProduced<T>(states: seq<State<T>>, steps: seq<(nat, Outcome<T>)>, i: nat, f: nat)
    requires Run(states, steps) && i < |states| && f in states[i].flights && states[i].flights[f].outcome.Some?
    ensures exists j :: 0 <= j < i && steps[j].0 == f && f < |states[j].places| && states[j].places[f].Working?
                        && states[i].flights[f].outcome == Some(steps[j].1)
  {
    if i > 0 {
      RunKeepsInv(states, steps, i - 1);
      var s, t := states[i - 1], steps[i - 1].0;
      assert OwnFlight(s, t);
      if f in s.flights && s.flights[f].outcome.Some? {
        OutcomeWasProduced(states, steps, i - 1, f);
        assert states[i].flights[f].outcome == s.flights[f].outcome;
        var j :| 0 <= j < i - 1 && steps[j].0 == f && f < |states[j].places| && states[j].places[f].Working?
                 && s.flights[f].outcome == Some(steps[j].1);
      } else {
        assert t == f && s.places[t].Working?;
      }
    } else {
      assert false;
    }
  }

  // ---- progress -----------------------------------------------------------------------------

  predicate AllReturned<T>(s: State<T>) {
    forall t :: 0 <= t < |s.places| ==> s.places[t].Returned?
  }

  /** Nobody is ever stuck: while a request has not returned, some request can step. */
  lemma NeverStuck<T>(s: State<T>)
    requires Inv(s) && !AllReturned(s)
    ensures exists t :: CanStep(s, t)
  {
    var t :| 0 <= t < |s.places| && !s.places[t].Returned?;
    assert OwnFlight(s, t);
    if !CanStep(s, t) {
      if s.mutex.Some? {
        var u := s.mutex.value;
        assert HoldsMutex(s.places[u]) && OwnFlight(s, u);
        assert CanStep(s, u);
      } else {
        var f := s.places[t].flight;
        assert OwnFlight(s, f);
        assert CanStep(s, f);
      }
    }
  }

  function Left<T>(p: Place<T>): nat {
    match p
    case Arriving => 9 case Looking => 8
    case Opening => 7 case Working => 6 case Finished => 5 case Releasing => 4 case Cleared => 3 case Closing => 2
    case Joining(_) => 2 case Waiting(_) => 1
    case Returned(_, _) => 0
  }

  function TotalLeft<T>(ps: seq<Place<T>>): nat {
    if ps == [] then 0 else Left(ps[0]) + TotalLeft(ps[1..])
  }

  lemma {:induction false} TotalUpdate<T>(ps: seq<Place<T>>, t: nat, p: Place<T>)
    requires t < |ps|
    ensures TotalLeft(ps[t := p]) == TotalLeft(ps) - Left(ps[t]) + Left(p)
  {
    if t > 0 {
      assert ps[t := p][1..] == ps[1..][t - 1 := p];
      TotalUpdate(ps[1..], t - 1, p);
    } else {
      assert ps[t := p][1..] == ps[1..];
    }
  }

  /** Every step uses up one of finitely many, so every run that goes on as long as
      it can ends with every request returned. */
  lemma StepProgresses<T>(s: State<T>, t: nat, out: Outcome<T>)
    requires Inv(s) && CanStep(s, t)
    ensures TotalLeft(Step(s, t, out).places) < TotalLeft(s.places)
  {
    assert OwnFlight(s, t);
    TotalUpdate(s.places, t, Step(s, t, out).places[t]);
  }

  lemma {:induction false} RunsAreShort<T>(states: seq<State<T>>, steps: seq<(nat, Outcome<T>)>, i: nat)
    requires Run(states, steps) && i < |states|
    ensures i + TotalLeft(states[i].places) <= TotalLeft(states[0].places)
  {
    if i > 0 {
      RunsAreShort(states, steps, i - 1);
      RunKeepsInv(states, steps, i - 1);
      StepProgresses(states[i - 1], steps[i - 1].0, steps[i - 1].1);
    }
  }

  /** No run takes more than nine steps a request, and one that can go no further has
      answered everybody. */
  lemma RunsFinish<T>(states: seq<State<T>>, steps: seq<(nat, Outcome<T>)>)
    requires Run(states, steps)
    ensures |steps| <= 9 * |states[0].places|
    ensures (forall t :: !CanStep(states[|steps|], t)) ==> AllReturned(states[|steps|])
  {
    var last := states[|steps|];
    RunsAreShort(states, steps, |steps|);
    RunKeepsInv(states, steps, |steps|);
    TotalBounded(states[0].places);
    if !AllReturned(last) { NeverStuck(last); }
  }

  lemma {:induction false} TotalBounded<T>(ps: seq<Place<T>>)
    ensures TotalLeft(ps) <= 9 * |ps|
  {
    if ps != [] { TotalBounded(ps[1..]); }
  }
}
