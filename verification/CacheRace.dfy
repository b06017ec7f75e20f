/** chainFor taken apart: it looks at the frozen flag twice, and what happens between
    the two looks decides whether the chain it caches is stale. */
module CacheRace {
  import opened Wrappers

  /** A call of chainFor: about to look, composing, holding a chain composed from the
      first n registrations, or returned with such a chain. */
  datatype Caller = Start | Composing | Composed(n: nat) | Returned(n: nat)

  /** The number of registrations, the flag, the cache entry of one model and
      operation (the registrations it was composed from), and the calls in flight. */
  datatype State = State(registered: nat, frozen: bool, entry: Option<nat>, callers: seq<Caller>)

  datatype Event = Register | Freeze | Call | Step(c: nat)

  predicate Enabled(s: State, e: Event) {
    match e
    case Register => !s.frozen
    case Freeze => true
    case Call => true
    case Step(c) => c < |s.callers| && !s.callers[c].Returned?
  }

  function Apply(s: State, e: Event): State
    requires Enabled(s, e)
  {
    match e
    case Register => s.(registered := s.registered + 1)
    case Freeze => s.(frozen := true)
    case Call => s.(callers := s.callers + [Start])
    case Step(c) =>
      match s.callers[c]
      case Start => s.(callers := s.callers[c := if s.frozen && s.entry.Some? then Returned(s.entry.value) else Composing])
      case Composing => s.(callers := s.callers[c := Composed(s.registered)])
      case Composed(n) => s.(entry := if s.frozen then Some(n) else s.entry, callers := s.callers[c := Returned(n)])
      case Returned(_) => s
  }

  ghost predicate Run(states: seq<State>, events: seq<Event>) {
    && RunFrom(states, events)
    && states[0].registered == 0 && !states[0].frozen && states[0].entry == None
    && (forall c :: 0 <= c < |states[0].callers| ==> states[0].callers[c].Start?)
  }

  ghost predicate RunFrom(states: seq<State>, events: seq<Event>) {
    && |states| == |events| + 1
    && forall i :: 0 <= i < |events| ==> Enabled(states[i], events[i]) && states[i + 1] == Apply(states[i], events[i])
  }

  predicate Stale(s: State) {
    s.entry.Some? && s.entry.value != s.registered
  }

  /** A registration made while some call holds a chain it has composed. */
  predicate Overtakes(s: State, e: Event) {
    e == Register && exists c :: 0 <= c < |s.callers| && s.callers[c].Composed?
  }

  /** No registration overtakes a call, as when each call is atomic. */
  ghost predicate Undisturbed(states: seq<State>, events: seq<Event>, i: nat)
    requires |states| == |events| + 1 && i <= |events|
  {
    forall j :: 0 <= j < i ==> !Overtakes(states[j], events[j])
  }

  lemma {:induction false} UndisturbedIsFresh(states: seq<State>, events: seq<Event>, i: nat)
    requires Run(states, events) && i <= |events| && Undisturbed(states, events, i)
    ensures !Stale(states[i]) && (states[i].entry.Some? ==> states[i].frozen)
    ensures forall c :: 0 <= c < |states[i].callers| && states[i].callers[c].Composed? ==> states[i].callers[c].n == states[i].registered
  {
    if i > 0 {
      UndisturbedIsFresh(states, events, i - 1);
      assert Enabled(states[i - 1], events[i - 1]) && !Overtakes(states[i - 1], events[i - 1]);
    }
  }

  /** What a call stores is stale exactly when something was registered after it
      composed. */
  lemma StoreIsStaleIff(states: seq<State>, events: seq<Event>, i: nat, c: nat)
    requires Run(states, events) && i < |events| && events[i] == Step(c) && states[i].callers[c].Composed? && states[i].frozen
    ensures Stale(states[i + 1]) <==> states[i].callers[c].n < states[i].registered
  {
    ComposedFromPast(states, events, i);
  }

  lemma {:induction false} ComposedFromPast(states: seq<State>, events: seq<Event>, i: nat)
    requires Run(states, events) && i <= |events|
    ensures forall c :: 0 <= c < |states[i].callers| && states[i].callers[c].Composed? ==> states[i].callers[c].n <= states[i].registered
  {
    if i > 0 {
      ComposedFromPast(states, events, i - 1);
      assert Enabled(states[i - 1], events[i - 1]);
    }
  }

  // ---- what becomes of a stale entry ------------------------------------------------------

  /** A call under way will store, or may still compose, the chain of all the
      registrations. */
  ghost predicate FreshInFlight(s: State) {
    exists c :: 0 <= c < |s.callers| && (s.callers[c].Composing? || s.callers[c] == Composed(s.registered))
  }

  /** The calls of s that were not under way yet, and all later ones, that have
      returned in t answered with a stale chain. */
  ghost predicate AnswersStale(s: State, t: State) {
    forall c :: 0 <= c < |t.callers| && (c < |s.callers| ==> !s.callers[c].Returned?) && t.callers[c].Returned? ==>
      t.callers[c].n != t.registered
  }

  /** Over every continuation, in which calls arrive, step and return in any order:
      a stale entry is stale still, and whoever asks is answered with a stale
      chain, unless a fresh one was already under way. */
  lemma {:induction false} StaleForEver(states: seq<State>, events: seq<Event>, i: nat)
    requires RunFrom(states, events) && i <= |events|
    requires states[0].frozen && Stale(states[0]) && !FreshInFlight(states[0])
    ensures states[i].frozen && states[i].registered == states[0].registered
    ensures Stale(states[i]) && !FreshInFlight(states[i])
    ensures |states[0].callers| <= |states[i].callers|
    ensures forall c :: 0 <= c < |states[0].callers| && states[0].callers[c].Returned? ==> states[i].callers[c] == states[0].callers[c]
    ensures AnswersStale(states[0], states[i])
  {
    if i > 0 {
      StaleForEver(states, events, i - 1);
      var s, e := states[i - 1], events[i - 1];
      assert Enabled(s, e) && states[i] == Apply(s, e);
      match e {
        case Step(c) => StaleStep(states[0], s, c);
        case Call => assert forall c :: 0 <= c < |s.callers| ==> Apply(s, e).callers[c] == s.callers[c];
        case _ =>
      }
    }
  }

  lemma StaleStep(first: State, s: State, c: nat)
    requires s.frozen && Stale(s) && !FreshInFlight(s) && Enabled(s, Step(c)) && AnswersStale(first, s)
    ensures Stale(Apply(s, Step(c))) && !FreshInFlight(Apply(s, Step(c))) && AnswersStale(first, Apply(s, Step(c)))
  {
    var t := Apply(s, Step(c));
    assert !s.callers[c].Composing? && s.callers[c] != Composed(s.registered);
    assert forall x :: 0 <= x < |t.callers| && x != c ==> t.callers[x] == s.callers[x];
  }

  /** With no call under way the very entry stays, and every later call returns it. */
  lemma {:induction false} EntryAnswersForEver(states: seq<State>, events: seq<Event>, i: nat)
    requires RunFrom(states, events) && i <= |events|
    requires states[0].frozen && states[0].entry.Some?
    requires forall c :: 0 <= c < |states[0].callers| ==> states[0].callers[c].Start? || states[0].callers[c].Returned?
    ensures states[i].frozen && states[i].entry == states[0].entry && states[i].registered == states[0].registered
    ensures |states[0].callers| <= |states[i].callers|
    ensures forall c :: 0 <= c < |states[i].callers| ==>
              if c < |states[0].callers| && states[0].callers[c].Returned? then states[i].callers[c] == states[0].callers[c]
              else states[i].callers[c] == Start || states[i].callers[c] == Returned(states[0].entry.value)
  {
    if i > 0 {
      EntryAnswersForEver(states, events, i - 1);
      assert Enabled(states[i - 1], events[i - 1]) && states[i] == Apply(states[i - 1], events[i - 1]);
    }
  }

  /** Nothing can be answered afresh any more, whatever happens. */
  ghost predicate StaysStale(s: State) {
    forall states, events :: RunFrom(states, events) && states[0] == s ==> Stale(states[|events|])
  }

  /** Once the window is closed, a stale entry stays stale for ever exactly when no
      fresh chain was under way. */
  lemma StaysStaleIff(s: State)
    requires s.frozen && Stale(s)
    ensures StaysStale(s) <==> !FreshInFlight(s)
  {
    if FreshInFlight(s) {
      var c :| 0 <= c < |s.callers| && (s.callers[c].Composing? || s.callers[c] == Composed(s.registered));
      var t := Apply(s, Step(c));
      if s.callers[c].Composing? {
        var states, events := [s, t, Apply(t, Step(c))], [Step(c), Step(c)];
        assert RunFrom(states, events) && !Stale(states[|events|]);
      } else {
        var states, events := [s, t], [Step(c)];
        assert RunFrom(states, events) && !Stale(states[|events|]);
      }
    } else {
      forall states, events | RunFrom(states, events) && states[0] == s ensures Stale(states[|events|]) {
        StaleForEver(states, events, |events|);
      }
    }
  }

  /** It can happen: a call composes, a middleware is registered, the pipeline is
      frozen, and the call stores the chain without it. */
  lemma OvertakenCallCachesAStaleChain() returns (states: seq<State>, events: seq<Event>)
    ensures Run(states, events) && Stale(states[|events|]) && states[|events|].callers == [Returned(0)] && states[|events|].frozen
  {
    events := [Step(0), Step(0), Register, Freeze, Step(0)];
    var s0 := State(0, false, None, [Start]);
    var s1 := Apply(s0, Step(0));
    var s2 := Apply(s1, Step(0));
    var s3 := Apply(s2, Register);
    var s4 := Apply(s3, Freeze);
    var s5 := Apply(s4, Step(0));
    states := [s0, s1, s2, s3, s4, s5];
    assert s2.callers == [Composed(0)] && s5.callers == [Returned(0)];
  }
}
