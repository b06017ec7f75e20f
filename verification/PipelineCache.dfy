/** The pipeline object: registration, the freeze, and the chain caches of the steps
    and of the whole, which never go stale. */
module PipelineCache {
  import opened Wrappers
  import opened Chain
  import opened Registry
  import opened Pipeline

  class RequestPipeline<S(==)> {
    const builtins: Builtins<S>
    const auth: StepRegistry<S>
    const deserialize: StepRegistry<S>
    const validate: StepRegistry<S>
    const service: StepRegistry<S>
    const db: StepRegistry<S>
    const response: StepRegistry<S>
    var frozen: bool
    var chains: map<ChainKey, Middleware<S>>

    constructor (builtins: Builtins<S>)
      ensures this.builtins == builtins && Valid() && !frozen && Regs() == Registries([], [], [], [], [], [])
      ensures fresh(Steps())
    {
      hide FullChain, StepRegistry.Valid;
      this.builtins := builtins;
      auth := new StepRegistry(Auth, builtins.default(Auth));
      deserialize := new StepRegistry(Deserialize, builtins.default(Deserialize));
      validate := new StepRegistry(Validate, builtins.default(Validate));
      service := new StepRegistry(Service, builtins.default(Service));
      db := new StepRegistry(DB, builtins.default(DB));
      response := new StepRegistry(Response, builtins.default(Response));
      frozen, chains := false, map[];
    }

    ghost function Steps(): set<StepRegistry<S>> {
      {auth, deserialize, validate, service, db, response}
    }

    ghost function Regs(): Registries<S>
      reads Steps()
    {
      Registries(auth.middlewares, deserialize.middlewares, validate.middlewares, service.middlewares, db.middlewares, response.middlewares)
    }

    /** Each registry is its own object and serves its own step. */
    ghost predicate Wired() {
      && auth !in {deserialize, validate, service, db, response} && deserialize !in {validate, service, db, response}
      && validate !in {service, db, response} && service !in {db, response} && db != response
      && auth.step == Auth && deserialize.step == Deserialize && validate.step == Validate
      && service.step == Service && db.step == DB && response.step == Response
      && auth.defaultFn == builtins.default(Auth) && deserialize.defaultFn == builtins.default(Deserialize)
      && validate.defaultFn == builtins.default(Validate) && service.defaultFn == builtins.default(Service)
      && db.defaultFn == builtins.default(DB) && response.defaultFn == builtins.default(Response)
    }

    ghost predicate StepsValid()
      reads Steps()
    {
      auth.Valid() && deserialize.Valid() && validate.Valid() && service.Valid() && db.Valid() && response.Valid()
    }

    ghost predicate AllFrozen(f: bool)
      reads Steps()
    {
      && auth.frozen == f && deserialize.frozen == f && validate.frozen == f
      && service.frozen == f && db.frozen == f && response.frozen == f
    }

    ghost predicate CacheFresh(r: Registries<S>)
      reads this
    {
      && (!frozen ==> chains == map[])
      && forall k :: k in chains ==> chains[k] == FullChain(builtins, r, k.0, k.1)
    }

    /** Every cached chain, of a step or of the whole, is what composing the
        registrations as they stand would give; the steps are frozen with the whole. */
    ghost predicate Valid()
      reads this, Steps()
    {
      Wired() && StepsValid() && AllFrozen(frozen) && CacheFresh(Regs())
    }

    method Register(step: Step, m: Registration<S>) returns (panicked: bool)
      requires Valid()
      modifies Steps()
      ensures Valid() && panicked == frozen && chains == old(chains)
      ensures Regs() == if panicked then old(Regs()) else old(Regs()).With(step, old(Regs()).Of(step) + [m])
    {
      hide FullChain;
      match step {
        case Auth => panicked := auth.Register(m);
        case Deserialize => panicked := deserialize.Register(m);
        case Validate => panicked := validate.Register(m);
        case Service => panicked := service.Register(m);
        case DB => panicked := db.Register(m);
        case Response => panicked := response.Register(m);
      }
    }

    /** Closes every step, then the pipeline. */
    method Freeze()
      requires Valid()
      modifies this`frozen, Steps()
      ensures Valid() && frozen && Regs() == old(Regs()) && chains == old(chains)
    {
      hide FullChain, StepRegistry.Valid;
      auth.Freeze();
      deserialize.Freeze();
      validate.Freeze();
      service.Freeze();
      db.Freeze();
      response.Freeze();
      frozen := true;
    }

    method ScopeChainFor(model: string, op: Operation) returns (chain: Middleware<S>)
      requires Wired()
      ensures chain == ScopeChain(Regs(), model, op)
    {
      hide ScopeMiddlewaresOf, Ones;
      var a := auth.ScopeMiddlewares(model, op);
      var d := deserialize.ScopeMiddlewares(model, op);
      var v := validate.ScopeMiddlewares(model, op);
      var s := service.ScopeMiddlewares(model, op);
      var q := db.ScopeMiddlewares(model, op);
      var t := response.ScopeMiddlewares(model, op);
      chain := Chain.Chain(Ones(a + (d + (v + (s + (q + t))))));
    }

    /** One step's chain, through that step's cache. */
    method BuildStep(step: Step, model: string, op: Operation) returns (chain: Middleware<S>)
      requires Valid()
      modifies Steps()
      ensures Valid() && Regs() == old(Regs()) && chain == StepChain(builtins, Regs(), step, model, op)
    {
      hide FullChain, StepRegistry.Valid, Composed, Ones;
      match step {
        case Auth => chain := auth.Build(model, op);
        case Deserialize => chain := deserialize.Build(model, op);
        case Validate => chain := validate.Build(model, op);
        case Service => chain := service.Build(model, op);
        case DB => chain := db.Build(model, op);
        case Response => chain := response.Build(model, op);
      }
    }

    /** From the cache when frozen and there; else composed, and stored if frozen.
        Either way it is the composition of the registrations at this moment. */
    method ChainFor(model: string, op: Operation) returns (chain: Middleware<S>)
      requires Valid()
      modifies this`chains, Steps()
      ensures Valid() && Regs() == old(Regs())
      ensures chain == FullChain(builtins, Regs(), model, op)
      ensures chains == if frozen then old(chains)[(model, op) := chain] else old(chains)
    {
      hide StepRegistry.Valid, StepChain, ScopeChain, Wired;
      var k := (model, op);
      if frozen && k in chains {
        assert chains == chains[k := chains[k]];
        return chains[k];
      }
      var a := BuildStep(Auth, model, op);
      var d := BuildStep(Deserialize, model, op);
      var sc := ScopeChainFor(model, op);
      var v := BuildStep(Validate, model, op);
      var s := BuildStep(Service, model, op);
      var q := BuildStep(DB, model, op);
      var t := BuildStep(Response, model, op);
      chain := Chain.Chain([a, d, One(Segment(ServerSet, builtins.serverSet)), sc, v, One(Segment(Strip, builtins.strip)), s, q, t]);
      if frozen { chains := chains[k := chain]; }
    }

    /** An action's chain is assembled anew for each request. */
    method ActionChainFor(model: string, op: Operation, mine: seq<S -> Prog<S>>, handler: S -> (S, Error), after: seq<S -> Prog<S>>)
      returns (chain: Middleware<S>)
      requires Valid()
      modifies Steps()
      ensures Valid() && Regs() == old(Regs())
      ensures chain == ActionChain(builtins, Regs(), model, op, mine, handler, after)
    {
      hide StepRegistry.Valid, StepChain, ScopeChain, Wired, FullChain, Ones, PerActionNamed, HandlerNamed;
      var a := BuildStep(Auth, model, op);
      var sc := ScopeChainFor(model, op);
      var t := BuildStep(Response, model, op);
      chain := Chain.Chain([a] + ([sc] + (Ones(PerActionNamed(false, mine)) + ([One(HandlerNamed(handler))] + (Ones(PerActionNamed(true, after)) + [t])))));
    }
  }

  // ---- over any sequence of calls ------------------------------------------------------------

  datatype Call<!S(==)> = Register(step: Step, m: Registration<S>) | FreezeAll | ChainFor(model: string, op: Operation) | Build(step: Step, model: string, op: Operation)

  function Stepped<S(==)>(st: (Registries<S>, bool), call: Call<S>): (Registries<S>, bool) {
    match call
    case Register(step, m) => if st.1 then st else (st.0.With(step, st.0.Of(step) + [m]), false)
    case FreezeAll => (st.0, true)
    case _ => st
  }

  /** The registrations in force after a sequence of calls, and whether it froze. */
  function After<S(==)>(calls: seq<Call<S>>): (Registries<S>, bool) {
    if calls == [] then (Registries([], [], [], [], [], []), false)
    else Stepped(After(calls[..|calls| - 1]), calls[|calls| - 1])
  }

  /** What a call answers if nothing is ever cached. */
  function Uncached<S(==)>(b: Builtins<S>, r: Registries<S>, call: Call<S>): Option<Middleware<S>> {
    match call
    case ChainFor(model, op) => Some(FullChain(b, r, model, op))
    case Build(step, model, op) => Some(StepChain(b, r, step, model, op))
    case _ => None
  }

  method Perform<S(==)>(p: RequestPipeline<S>, call: Call<S>) returns (answer: Option<Middleware<S>>)
    requires p.Valid()
    modifies p, p.Steps()
    ensures p.Valid() && (p.Regs(), p.frozen) == Stepped((old(p.Regs()), old(p.frozen)), call)
    ensures answer == Uncached(p.builtins, old(p.Regs()), call)
  {
    hide FullChain, StepChain, RequestPipeline.Valid, RequestPipeline.Regs;
    answer := None;
    match call {
      case Register(step, m) =>
        var panicked := p.Register(step, m);
      case FreezeAll => p.Freeze();
      case ChainFor(model, op) =>
        var chain := p.ChainFor(model, op);
        answer := Some(chain);
      case Build(step, model, op) =>
        var chain := p.BuildStep(step, model, op);
        answer := Some(chain);
    }
  }

  /** Over every sequence of Register, build, chainFor and freeze calls, each answer
      is the composition of the registrations at the time of the call. */
  method RunCalls<S(==)>(builtins: Builtins<S>, calls: seq<Call<S>>) returns (answers: seq<Option<Middleware<S>>>)
    ensures |answers| == |calls|
    ensures forall i :: 0 <= i < |calls| ==> answers[i] == Uncached(builtins, After(calls[..i]).0, calls[i])
  {
    hide Uncached, Stepped, RequestPipeline.Valid, RequestPipeline.Regs;
    var p := new RequestPipeline(builtins);
    answers := [];
    var i := 0;
    while i < |calls|
      invariant 0 <= i <= |calls| && |answers| == i && fresh(p) && fresh(p.Steps())
      invariant p.Valid() && p.builtins == builtins && (p.Regs(), p.frozen) == After(calls[..i])
      invariant forall j :: 0 <= j < i ==> answers[j] == Uncached(builtins, After(calls[..j]).0, calls[j])
    {
      assert calls[..i + 1][..i] == calls[..i];
      var answer := Perform(p, calls[i]);
      answers := answers + [answer];
      i := i + 1;
    }
  }

  /** Once frozen, what a model and operation are answered never changes again. */
  lemma {:induction false} FrozenAnswersAreFinal<S>(builtins: Builtins<S>, calls: seq<Call<S>>, i: nat, j: nat)
    requires i <= j < |calls| && After(calls[..i]).1
    ensures After(calls[..j]) == After(calls[..i])
    ensures calls[i] == calls[j] ==> Uncached(builtins, After(calls[..i]).0, calls[i]) == Uncached(builtins, After(calls[..j]).0, calls[j])
  {
    hide Uncached;
    if i < j {
      FrozenAnswersAreFinal(builtins, calls, i, j - 1);
      assert calls[..j][..j - 1] == calls[..j - 1];
    }
  }
}
