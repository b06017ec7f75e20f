/** The request pipeline: its full and trimmed chains, what runs in them and how
    often, and the caches that hand them out. */
module Pipeline {
  import opened Wrappers
  import opened Chain
  import opened Registry

  datatype Registries<!S(==)> = Registries(
    auth: seq<Registration<S>>, deserialize: seq<Registration<S>>, validate: seq<Registration<S>>,
    service: seq<Registration<S>>, db: seq<Registration<S>>, response: seq<Registration<S>>)
  {
    function Of(step: Step): seq<Registration<S>> {
      match step
      case Auth => auth case Deserialize => deserialize case Validate => validate
      case Service => service case DB => db case Response => response
    }

    function With(step: Step, ms: seq<Registration<S>>): Registries<S> {
      match step
      case Auth => this.(auth := ms) case Deserialize => this.(deserialize := ms) case Validate => this.(validate := ms)
      case Service => this.(service := ms) case DB => this.(db := ms) case Response => this.(response := ms)
    }
  }

  /** The built-in handlers, and the two fixed segments around the scope. */
  datatype Builtins<!S(==)> = Builtins(default: Step -> S -> Prog<S>, serverSet: S -> S, strip: S -> S)

  /** A segment that changes the request and goes on. */
  function Segment<S>(origin: Origin, f: S -> S): Named<S> {
    Named(origin, "", "", false, s => CallNext(f(s), imap[]))
  }

  // ---- the flat chains -----------------------------------------------------------------

  function StepFlat<S>(b: Builtins<S>, r: Registries<S>, step: Step, model: string, op: Operation): seq<Named<S>> {
    Composed(step, b.default(step), r.Of(step), model, op)
  }

  /** Every scope provider of every step the operation runs, in step order. */
  function ScopeFlat<S>(r: Registries<S>, model: string, op: Operation): seq<Named<S>> {
    ScopeMiddlewaresOf(Auth, r.auth, model, op) + (ScopeMiddlewaresOf(Deserialize, r.deserialize, model, op)
    + (ScopeMiddlewaresOf(Validate, r.validate, model, op) + (ScopeMiddlewaresOf(Service, r.service, model, op)
    + (ScopeMiddlewaresOf(DB, r.db, model, op) + ScopeMiddlewaresOf(Response, r.response, model, op)))))
  }

  ghost function BeforeScope<S>(b: Builtins<S>, r: Registries<S>, model: string, op: Operation): seq<Named<S>> {
    StepFlat(b, r, Auth, model, op) + (StepFlat(b, r, Deserialize, model, op) + [Segment(ServerSet, b.serverSet)])
  }

  ghost function AfterScope<S>(b: Builtins<S>, r: Registries<S>, model: string, op: Operation): seq<Named<S>> {
    StepFlat(b, r, Validate, model, op) + ([Segment(Strip, b.strip)] + (StepFlat(b, r, Service, model, op)
    + (StepFlat(b, r, DB, model, op) + StepFlat(b, r, Response, model, op))))
  }

  ghost function FullFlat<S>(b: Builtins<S>, r: Registries<S>, model: string, op: Operation): seq<Named<S>> {
    BeforeScope(b, r, model, op) + (ScopeFlat(r, model, op) + AfterScope(b, r, model, op))
  }

  // ---- the chains of chains -----------------------------------------------------------------

  function StepChain<S>(b: Builtins<S>, r: Registries<S>, step: Step, model: string, op: Operation): Middleware<S> {
    Chain.Chain(Ones(StepFlat(b, r, step, model, op)))
  }

  function ScopeChain<S>(r: Registries<S>, model: string, op: Operation): Middleware<S> {
    Chain.Chain(Ones(ScopeFlat(r, model, op)))
  }

  function FullChain<S>(b: Builtins<S>, r: Registries<S>, model: string, op: Operation): Middleware<S> {
    Chain.Chain([
      StepChain(b, r, Auth, model, op),
      StepChain(b, r, Deserialize, model, op),
      One(Segment(ServerSet, b.serverSet)),
      ScopeChain(r, model, op),
      StepChain(b, r, Validate, model, op),
      One(Segment(Strip, b.strip)),
      StepChain(b, r, Service, model, op),
      StepChain(b, r, DB, model, op),
      StepChain(b, r, Response, model, op)])
  }

  lemma {:induction false} OnesFlatten<S>(ns: seq<Named<S>>)
    ensures FlattenAll(Ones(ns)) == ns
  {
    if ns != [] {
      assert Ones(ns)[1..] == Ones(ns[1..]);
      OnesFlatten(ns[1..]);
      assert ns == [ns[0]] + ns[1..];
    }
  }

  lemma FlattenCons<S>(m: Middleware<S>, ms: seq<Middleware<S>>)
    ensures FlattenAll([m] + ms) == Flatten(m) + FlattenAll(ms)
  {
    assert ([m] + ms)[1..] == ms;
  }

  /** The nine segments flatten to one chain in order. */
  lemma FullChainFlattens<S(!new)>(b: Builtins<S>, r: Registries<S>, model: string, op: Operation)
    ensures Flatten(FullChain(b, r, model, op)) == FullFlat(b, r, model, op)
  {
    hide StepFlat, ScopeFlat, FlattenAll;
    var a, d, v, s, q, t := StepChain(b, r, Auth, model, op), StepChain(b, r, Deserialize, model, op), StepChain(b, r, Validate, model, op),
                            StepChain(b, r, Service, model, op), StepChain(b, r, DB, model, op), StepChain(b, r, Response, model, op);
    var x, y, z := One(Segment(ServerSet, b.serverSet)), ScopeChain(r, model, op), One(Segment(Strip, b.strip));
    forall step ensures Flatten(StepChain(b, r, step, model, op)) == StepFlat(b, r, step, model, op) {
      OnesFlatten(StepFlat(b, r, step, model, op));
    }
    OnesFlatten(ScopeFlat(r, model, op));
    var l8 := [t] + [];
    var l7 := [q] + l8;
    var l6 := [s] + l7;
    var l5 := [z] + l6;
    var l4 := [v] + l5;
    var l3 := [y] + l4;
    var l2 := [x] + l3;
    var l1 := [d] + l2;
    NothingFlattens<S>();
    FlattenCons(t, []);
    FlattenCons(q, l8);
    FlattenCons(s, l7);
    FlattenCons(z, l6);
    FlattenCons(v, l5);
    FlattenCons(y, l4);
    FlattenCons(x, l3);
    FlattenCons(d, l2);
    FlattenCons(a, l1);
    assert FullChain(b, r, model, op) == Chain.Chain([a] + l1);
    FlatRegroups(b, r, model, op);
  }

  lemma NothingFlattens<S>()
    ensures FlattenAll<S>([]) == []
  {
  }

  lemma FlatRegroups<S(!new)>(b: Builtins<S>, r: Registries<S>, model: string, op: Operation)
    ensures FullFlat(b, r, model, op)
            == StepFlat(b, r, Auth, model, op) + (StepFlat(b, r, Deserialize, model, op) + ([Segment(ServerSet, b.serverSet)]
               + (ScopeFlat(r, model, op) + (StepFlat(b, r, Validate, model, op) + ([Segment(Strip, b.strip)]
               + (StepFlat(b, r, Service, model, op) + (StepFlat(b, r, DB, model, op) + (StepFlat(b, r, Response, model, op) + []))))))))
  {
    hide StepFlat, ScopeFlat;
  }

  /** Running the pipeline is running one flat chain in order. */
  lemma PipelineIsFlat<S(!new)>(b: Builtins<S>, r: Registries<S>, model: string, op: Operation, s: S, next: S -> Outcome<S>)
    ensures Run(FullChain(b, r, model, op), s, next) == RunFlat(FullFlat(b, r, model, op), s, next)
  {
    RunIsFlat(FullChain(b, r, model, op), s, next);
    FullChainFlattens(b, r, model, op);
  }

  // ---- conservation ------------------------------------------------------------------------

  /** Times a registration should run in an operation that executes its step. */
  ghost function Expected<S>(ms: seq<Registration<S>>, model: string, op: Operation, i: nat): nat
    requires i < |ms|
  {
    if AppliesTo(ms[i], model, op) && (ms[i].providesScope || ms[i].position != Replace || Winner(ms, |ms|, model, op, i)) then 1 else 0
  }

  ghost function InScope<S>(ms: seq<Registration<S>>, model: string, op: Operation, i: nat): nat
    requires i < |ms|
  {
    if ms[i].providesScope && AppliesTo(ms[i], model, op) then 1 else 0
  }

  lemma StepFlatCounts<S>(b: Builtins<S>, r: Registries<S>, step: Step, model: string, op: Operation, own: Step, i: nat)
    requires i < |r.Of(own)|
    ensures Count(StepFlat(b, r, step, model, op), Registered(own, i))
            == if step == own then Expected(r.Of(own), model, op, i) - InScope(r.Of(own), model, op, i) else 0
  {
    hide AppliesTo, Winner, Composed;
    ComposedCounts(step, b.default(step), r.Of(step), model, op, Registered(own, i));
  }

  lemma ScopeOfCounts<S>(r: Registries<S>, step: Step, model: string, op: Operation, own: Step, i: nat)
    requires i < |r.Of(own)|
    ensures Count(ScopeMiddlewaresOf(step, r.Of(step), model, op), Registered(own, i))
            == if step == own && !OpSkipsStep(op, step) then InScope(r.Of(own), model, op, i) else 0
  {
    hide AppliesTo, Scopes, OpSkipsStep;
    ScopesCount(step, r.Of(step), |r.Of(step)|, model, op, Registered(own, i));
  }

  lemma ScopeFlatCounts<S>(r: Registries<S>, model: string, op: Operation, own: Step, i: nat)
    requires i < |r.Of(own)|
    ensures Count(ScopeFlat(r, model, op), Registered(own, i)) == if OpSkipsStep(op, own) then 0 else InScope(r.Of(own), model, op, i)
  {
    hide ScopeMiddlewaresOf, OpSkipsStep, InScope, Count;
    var o := Registered(own, i);
    forall step ensures Count(ScopeMiddlewaresOf(step, r.Of(step), model, op), o)
                        == if step == own && !OpSkipsStep(op, step) then InScope(r.Of(own), model, op, i) else 0 {
      ScopeOfCounts(r, step, model, op, own, i);
    }
    var t := ScopeMiddlewaresOf(Response, r.response, model, op);
    var q := ScopeMiddlewaresOf(DB, r.db, model, op) + t;
    var s := ScopeMiddlewaresOf(Service, r.service, model, op) + q;
    var v := ScopeMiddlewaresOf(Validate, r.validate, model, op) + s;
    var d := ScopeMiddlewaresOf(Deserialize, r.deserialize, model, op) + v;
    CountConcat(ScopeMiddlewaresOf(Auth, r.auth, model, op), d, o);
    CountConcat(ScopeMiddlewaresOf(Deserialize, r.deserialize, model, op), v, o);
    CountConcat(ScopeMiddlewaresOf(Validate, r.validate, model, op), s, o);
    CountConcat(ScopeMiddlewaresOf(Service, r.service, model, op), q, o);
    CountConcat(ScopeMiddlewaresOf(DB, r.db, model, op), t, o);
    assert r.Of(Auth) == r.auth && r.Of(Deserialize) == r.deserialize && r.Of(Validate) == r.validate;
    assert r.Of(Service) == r.service && r.Of(DB) == r.db && r.Of(Response) == r.response;
  }

  lemma SegmentCounts<S(!new)>(origin: Origin, f: S -> S, o: Origin)
    requires o.Registered? && !origin.Registered?
    ensures Count([Segment(origin, f)], o) == 0
  {
    var one := [Segment(origin, f)];
    assert one[1..] == [];
  }

  /** For an operation that runs the full pipeline, every applicable registration
      occurs exactly once in it, scope providers in the hoisted segment between
      Deserialize and Validate, and a Replace only if it is the last; a registration
      that does not apply, not at all. */
  lemma EveryRegistrationOnce<S(!new)>(b: Builtins<S>, r: Registries<S>, model: string, op: Operation, own: Step, i: nat)
    requires i < |r.Of(own)| && op !in {Action, Search, PresignUpload}
    ensures Count(FullFlat(b, r, model, op), Registered(own, i)) == Expected(r.Of(own), model, op, i)
    ensures Count(ScopeFlat(r, model, op), Registered(own, i)) == InScope(r.Of(own), model, op, i)
    ensures Count(BeforeScope(b, r, model, op), Registered(own, i)) + Count(AfterScope(b, r, model, op), Registered(own, i))
            == Expected(r.Of(own), model, op, i) - InScope(r.Of(own), model, op, i)
  {
    hide StepFlat, ScopeFlat, Expected, InScope, Count;
    var o := Registered(own, i);
    forall step ensures Count(StepFlat(b, r, step, model, op), o)
                        == if step == own then Expected(r.Of(own), model, op, i) - InScope(r.Of(own), model, op, i) else 0 {
      StepFlatCounts(b, r, step, model, op, own, i);
    }
    ScopeFlatCounts(r, model, op, own, i);
    SegmentCounts(ServerSet, b.serverSet, o);
    SegmentCounts(Strip, b.strip, o);
    var a, d, v, s, q, t := StepFlat(b, r, Auth, model, op), StepFlat(b, r, Deserialize, model, op), StepFlat(b, r, Validate, model, op),
                            StepFlat(b, r, Service, model, op), StepFlat(b, r, DB, model, op), StepFlat(b, r, Response, model, op);
    CountConcat(d, [Segment(ServerSet, b.serverSet)], o);
    CountConcat(a, d + [Segment(ServerSet, b.serverSet)], o);
    CountConcat(q, t, o);
    CountConcat(s, q + t, o);
    CountConcat([Segment(Strip, b.strip)], s + (q + t), o);
    CountConcat(v, [Segment(Strip, b.strip)] + (s + (q + t)), o);
    CountConcat(ScopeFlat(r, model, op), AfterScope(b, r, model, op), o);
    CountConcat(BeforeScope(b, r, model, op), ScopeFlat(r, model, op) + AfterScope(b, r, model, op), o);
  }

  // ---- trimmed pipelines --------------------------------------------------------------------

  /** The handler of an action or trimmed operation: an error ends the chain, else it
      goes on to Response. */
  function HandlerNamed<S>(handler: S -> (S, Error)): Named<S> {
    Named(Handler, "", "", false, s => if handler(s).1.Some? then Return(handler(s).0, handler(s).1) else CallNext(handler(s).0, imap[]))
  }

  function PerActionNamed<S>(response: bool, fns: seq<S -> Prog<S>>): seq<Named<S>> {
    seq(|fns|, i requires 0 <= i < |fns| => Named(PerAction(response, i), "", "", false, fns[i]))
  }

  /** Auth, scope, per-action middleware, handler, response middleware, Response. */
  function ActionChain<S>(b: Builtins<S>, r: Registries<S>, model: string, op: Operation,
                                      mine: seq<S -> Prog<S>>, handler: S -> (S, Error), after: seq<S -> Prog<S>>): Middleware<S> {
    Chain.Chain([StepChain(b, r, Auth, model, op)] + ([ScopeChain(r, model, op)]
      + (Ones(PerActionNamed(false, mine)) + ([One(HandlerNamed(handler))]
      + (Ones(PerActionNamed(true, after)) + [StepChain(b, r, Response, model, op)])))))
  }

  ghost function ActionFlat<S>(b: Builtins<S>, r: Registries<S>, model: string, op: Operation,
                                     mine: seq<S -> Prog<S>>, handler: S -> (S, Error), after: seq<S -> Prog<S>>): seq<Named<S>> {
    StepFlat(b, r, Auth, model, op) + (ScopeFlat(r, model, op)
      + (PerActionNamed(false, mine) + ([HandlerNamed(handler)]
      + (PerActionNamed(true, after) + StepFlat(b, r, Response, model, op)))))
  }

  lemma {:induction false} FlattenConcat<S>(a: seq<Middleware<S>>, b: seq<Middleware<S>>)
    ensures FlattenAll(a + b) == FlattenAll(a) + FlattenAll(b)
  {
    if a == [] {
      assert a + b == b;
    } else {
      assert (a + b)[1..] == a[1..] + b;
      FlattenConcat(a[1..], b);
    }
  }

  lemma ActionChainFlattens<S(!new)>(b: Builtins<S>, r: Registries<S>, model: string, op: Operation,
                                     mine: seq<S -> Prog<S>>, handler: S -> (S, Error), after: seq<S -> Prog<S>>)
    ensures Flatten(ActionChain(b, r, model, op, mine, handler, after)) == ActionFlat(b, r, model, op, mine, handler, after)
  {
    hide StepFlat, ScopeFlat, FlattenAll, Ones, PerActionNamed, HandlerNamed;
    var a, y, h, t := StepChain(b, r, Auth, model, op), ScopeChain(r, model, op), One(HandlerNamed(handler)), StepChain(b, r, Response, model, op);
    var m, n := Ones(PerActionNamed(false, mine)), Ones(PerActionNamed(true, after));
    OnesFlatten(StepFlat(b, r, Auth, model, op));
    OnesFlatten(StepFlat(b, r, Response, model, op));
    OnesFlatten(ScopeFlat(r, model, op));
    OnesFlatten(PerActionNamed(false, mine));
    OnesFlatten(PerActionNamed(true, after));
    NothingFlattens<S>();
    FlattenCons(t, []);
    assert [t] + [] == [t];
    FlattenConcat(n, [t]);
    FlattenCons(h, n + [t]);
    FlattenConcat(m, [h] + (n + [t]));
    FlattenCons(y, m + ([h] + (n + [t])));
    FlattenCons(a, [y] + (m + ([h] + (n + [t]))));
  }

  /** A trimmed pipeline is one flat chain too. */
  lemma ActionIsFlat<S(!new)>(b: Builtins<S>, r: Registries<S>, model: string, op: Operation,
                              mine: seq<S -> Prog<S>>, handler: S -> (S, Error), after: seq<S -> Prog<S>>, s: S, next: S -> Outcome<S>)
    ensures Run(ActionChain(b, r, model, op, mine, handler, after), s, next) == RunFlat(ActionFlat(b, r, model, op, mine, handler, after), s, next)
  {
    RunIsFlat(ActionChain(b, r, model, op, mine, handler, after), s, next);
    ActionChainFlattens(b, r, model, op, mine, handler, after);
  }

  lemma {:induction false} NotRegistered<S>(ns: seq<Named<S>>, o: Origin)
    requires o.Registered? && forall i :: 0 <= i < |ns| ==> !ns[i].origin.Registered?
    ensures Count(ns, o) == 0
  {
    if ns != [] {
      assert forall i :: 0 <= i < |ns[1..]| ==> ns[1..][i] == ns[i + 1];
      NotRegistered(ns[1..], o);
    }
  }

  /** For an operation with a trimmed pipeline: a registration on a step it executes
      occurs exactly once, hoisted or not; one on a step it skips never, not even as
      a scope provider. */
  lemma TrimmedRegistrations<S(!new)>(b: Builtins<S>, r: Registries<S>, model: string, op: Operation,
                                      mine: seq<S -> Prog<S>>, handler: S -> (S, Error), after: seq<S -> Prog<S>>, own: Step, i: nat)
    requires i < |r.Of(own)| && op in {Action, Search, PresignUpload}
    ensures Count(ActionFlat(b, r, model, op, mine, handler, after), Registered(own, i))
            == if own != Auth && own != Response then 0 else Expected(r.Of(own), model, op, i)
  {
    hide StepFlat, ScopeFlat, Expected, InScope, Count, PerActionNamed, HandlerNamed;
    var o := Registered(own, i);
    StepFlatCounts(b, r, Auth, model, op, own, i);
    StepFlatCounts(b, r, Response, model, op, own, i);
    ScopeFlatCounts(r, model, op, own, i);
    OtherCounts(mine, handler, after, o);
    var a, y, t := StepFlat(b, r, Auth, model, op), ScopeFlat(r, model, op), StepFlat(b, r, Response, model, op);
    var m, h, n := PerActionNamed(false, mine), [HandlerNamed(handler)], PerActionNamed(true, after);
    CountConcat(n, t, o);
    CountConcat(h, n + t, o);
    CountConcat(m, h + (n + t), o);
    CountConcat(y, m + (h + (n + t)), o);
    CountConcat(a, y + (m + (h + (n + t))), o);
    assert OpSkipsStep(op, own) <==> own != Auth && own != Response;
  }

  lemma OtherCounts<S(!new)>(mine: seq<S -> Prog<S>>, handler: S -> (S, Error), after: seq<S -> Prog<S>>, o: Origin)
    requires o.Registered?
    ensures Count(PerActionNamed(false, mine), o) == 0 && Count(PerActionNamed(true, after), o) == 0 && Count([HandlerNamed(handler)], o) == 0
  {
    NotRegistered(PerActionNamed(false, mine), o);
    NotRegistered(PerActionNamed(true, after), o);
    NotRegistered([HandlerNamed(handler)], o);
  }
}
