/** What the pipeline runs under each tag, and in which order: the function that was
    registered, in the segment it belongs to. */
module PipelineBodies {
  import opened Wrappers
  import opened Chain
  import opened Registry
  import opened Pipeline
  import opened PipelineCache

  // ---- the functions ------------------------------------------------------------------

  /** n runs what its origin names: the registered function under the registered
      name, the built-in handler of the step, or the fixed segment. */
  ghost predicate Runs<S(!new)>(b: Builtins<S>, r: Registries<S>, n: Named<S>) {
    match n.origin
    case Registered(Auth, i) => i < |r.auth| && n.body == r.auth[i].fn && n.name == r.auth[i].name
    case Registered(Deserialize, i) => i < |r.deserialize| && n.body == r.deserialize[i].fn && n.name == r.deserialize[i].name
    case Registered(Validate, i) => i < |r.validate| && n.body == r.validate[i].fn && n.name == r.validate[i].name
    case Registered(Service, i) => i < |r.service| && n.body == r.service[i].fn && n.name == r.service[i].name
    case Registered(DB, i) => i < |r.db| && n.body == r.db[i].fn && n.name == r.db[i].name
    case Registered(Response, i) => i < |r.response| && n.body == r.response[i].fn && n.name == r.response[i].name
    case Default(step) => n.body == b.default(step)
    case ServerSet => forall s :: n.body(s) == CallNext(b.serverSet(s), imap[])
    case Strip => forall s :: n.body(s) == CallNext(b.strip(s), imap[])
    case _ => false
  }

  ghost predicate AllRun<S(!new)>(b: Builtins<S>, r: Registries<S>, ns: seq<Named<S>>) {
    forall k :: 0 <= k < |ns| ==> Runs(b, r, ns[k])
  }

  lemma AllRunConcat<S(!new)>(b: Builtins<S>, r: Registries<S>, s: seq<Named<S>>, t: seq<Named<S>>)
    requires AllRun(b, r, s) && AllRun(b, r, t)
    ensures AllRun(b, r, s + t)
  {
    hide Runs;
  }

  lemma CarriesRuns<S(!new)>(b: Builtins<S>, r: Registries<S>, step: Step, n: Named<S>)
    requires Carries(step, r.Of(step), n) || (n.origin == Default(step) && n.body == b.default(step))
    ensures Runs(b, r, n)
  {
  }

  lemma StepRuns<S(!new)>(b: Builtins<S>, r: Registries<S>, step: Step, model: string, op: Operation)
    ensures AllRun(b, r, StepFlat(b, r, step, model, op))
  {
    hide Runs, Composed, Carries;
    forall k | 0 <= k < |StepFlat(b, r, step, model, op)| ensures Runs(b, r, StepFlat(b, r, step, model, op)[k]) {
      ComposedCarries(step, b.default(step), r.Of(step), model, op, k);
      CarriesRuns(b, r, step, StepFlat(b, r, step, model, op)[k]);
    }
  }

  lemma ScopeOfRuns<S(!new)>(b: Builtins<S>, r: Registries<S>, step: Step, model: string, op: Operation)
    ensures AllRun(b, r, ScopeMiddlewaresOf(step, r.Of(step), model, op))
  {
    hide Runs, Scopes, Carries;
    var ns := ScopeMiddlewaresOf(step, r.Of(step), model, op);
    forall k | 0 <= k < |ns| ensures Runs(b, r, ns[k]) {
      ScopesCarry(step, r.Of(step), |r.Of(step)|, model, op, k);
      CarriesRuns(b, r, step, ns[k]);
    }
  }

  lemma ScopeRuns<S(!new)>(b: Builtins<S>, r: Registries<S>, model: string, op: Operation)
    ensures AllRun(b, r, ScopeFlat(r, model, op))
  {
    hide AllRun, ScopeMiddlewaresOf;
    ScopeOfRuns(b, r, Auth, model, op);
    ScopeOfRuns(b, r, Deserialize, model, op);
    ScopeOfRuns(b, r, Validate, model, op);
    ScopeOfRuns(b, r, Service, model, op);
    ScopeOfRuns(b, r, DB, model, op);
    ScopeOfRuns(b, r, Response, model, op);
    var t := ScopeMiddlewaresOf(Response, r.response, model, op);
    var q := ScopeMiddlewaresOf(DB, r.db, model, op) + t;
    var s := ScopeMiddlewaresOf(Service, r.service, model, op) + q;
    var v := ScopeMiddlewaresOf(Validate, r.validate, model, op) + s;
    AllRunConcat(b, r, ScopeMiddlewaresOf(DB, r.db, model, op), t);
    AllRunConcat(b, r, ScopeMiddlewaresOf(Service, r.service, model, op), q);
    AllRunConcat(b, r, ScopeMiddlewaresOf(Validate, r.validate, model, op), s);
    AllRunConcat(b, r, ScopeMiddlewaresOf(Deserialize, r.deserialize, model, op), v);
    AllRunConcat(b, r, ScopeMiddlewaresOf(Auth, r.auth, model, op), ScopeMiddlewaresOf(Deserialize, r.deserialize, model, op) + v);
  }

  lemma SegmentRuns<S(!new)>(b: Builtins<S>, r: Registries<S>)
    ensures AllRun(b, r, [Segment(ServerSet, b.serverSet)]) && AllRun(b, r, [Segment(Strip, b.strip)])
  {
  }

  /** Everything in the pipeline is a registered function under its own tag, a step's
      built-in handler, or one of the two fixed segments. So the counts of tags are
      counts of the registered functions. */
  lemma PipelineRunsWhatWasRegistered<S(!new)>(b: Builtins<S>, r: Registries<S>, model: string, op: Operation, k: nat)
    requires k < |FullFlat(b, r, model, op)|
    ensures Runs(b, r, FullFlat(b, r, model, op)[k])
  {
    hide StepFlat, ScopeFlat, Runs, Segment;
    forall step ensures AllRun(b, r, StepFlat(b, r, step, model, op)) { StepRuns(b, r, step, model, op); }
    ScopeRuns(b, r, model, op);
    SegmentRuns(b, r);
    EverySegmentRuns(b, r, model, op);
  }

  lemma EverySegmentRuns<S(!new)>(b: Builtins<S>, r: Registries<S>, model: string, op: Operation)
    requires forall step :: AllRun(b, r, StepFlat(b, r, step, model, op))
    requires AllRun(b, r, ScopeFlat(r, model, op))
    requires AllRun(b, r, [Segment(ServerSet, b.serverSet)]) && AllRun(b, r, [Segment(Strip, b.strip)])
    ensures AllRun(b, r, FullFlat(b, r, model, op))
  {
    hide StepFlat, ScopeFlat, Segment, AllRun;
    var q := StepFlat(b, r, DB, model, op) + StepFlat(b, r, Response, model, op);
    var s := StepFlat(b, r, Service, model, op) + q;
    var d := StepFlat(b, r, Deserialize, model, op) + [Segment(ServerSet, b.serverSet)];
    AllRunConcat(b, r, StepFlat(b, r, DB, model, op), StepFlat(b, r, Response, model, op));
    AllRunConcat(b, r, StepFlat(b, r, Service, model, op), q);
    AllRunConcat(b, r, [Segment(Strip, b.strip)], s);
    AllRunConcat(b, r, StepFlat(b, r, Validate, model, op), [Segment(Strip, b.strip)] + s);
    AllRunConcat(b, r, StepFlat(b, r, Deserialize, model, op), [Segment(ServerSet, b.serverSet)]);
    AllRunConcat(b, r, StepFlat(b, r, Auth, model, op), d);
    AllRunConcat(b, r, ScopeFlat(r, model, op), AfterScope(b, r, model, op));
    AllRunConcat(b, r, BeforeScope(b, r, model, op), ScopeFlat(r, model, op) + AfterScope(b, r, model, op));
  }

  /** A trimmed pipeline runs besides those its per-action functions and its handler,
      each under its own tag. */
  lemma ActionRunsWhatWasRegistered<S(!new)>(b: Builtins<S>, r: Registries<S>, model: string, op: Operation,
                                             mine: seq<S -> Prog<S>>, handler: S -> (S, Error), after: seq<S -> Prog<S>>, k: nat)
    requires k < |ActionFlat(b, r, model, op, mine, handler, after)|
    ensures var n := ActionFlat(b, r, model, op, mine, handler, after)[k];
            match n.origin
            case PerAction(false, i) => i < |mine| && n.body == mine[i]
            case PerAction(true, i) => i < |after| && n.body == after[i]
            case Handler => forall s :: n.body(s) == if handler(s).1.Some? then Return(handler(s).0, handler(s).1) else CallNext(handler(s).0, imap[])
            case _ => Runs(b, r, n)
  {
    hide StepFlat, ScopeFlat, Runs;
    StepRuns(b, r, Auth, model, op);
    StepRuns(b, r, Response, model, op);
    ScopeRuns(b, r, model, op);
    StepsAreTheirs(b, r, Auth, model, op);
    StepsAreTheirs(b, r, Response, model, op);
    ScopesAreTheirs(b, r, model, op);
    var a, y, t := StepFlat(b, r, Auth, model, op), ScopeFlat(r, model, op), StepFlat(b, r, Response, model, op);
    var m, n := PerActionNamed(false, mine), PerActionNamed(true, after);
    var at := |a| + |y| + |m|;
    if |a| + |y| <= k < at {
      assert ActionFlat(b, r, model, op, mine, handler, after)[k] == m[k - |a| - |y|];
    } else if at < k <= at + |n| {
      assert ActionFlat(b, r, model, op, mine, handler, after)[k] == n[k - at - 1];
    } else if k > at + |n| {
      assert ActionFlat(b, r, model, op, mine, handler, after)[k] == t[k - at - 1 - |n|];
    }
  }

  ghost predicate OfTheSteps<S>(ns: seq<Named<S>>) {
    forall k :: 0 <= k < |ns| ==> ns[k].origin.Registered? || ns[k].origin.Default?
  }

  lemma StepsAreTheirs<S(!new)>(b: Builtins<S>, r: Registries<S>, step: Step, model: string, op: Operation)
    ensures OfTheSteps(StepFlat(b, r, step, model, op))
  {
    hide Composed;
    forall k | 0 <= k < |StepFlat(b, r, step, model, op)|
      ensures StepFlat(b, r, step, model, op)[k].origin.Registered? || StepFlat(b, r, step, model, op)[k].origin.Default?
    {
      ComposedCarries(step, b.default(step), r.Of(step), model, op, k);
    }
  }

  lemma ScopesAreTheirs<S(!new)>(b: Builtins<S>, r: Registries<S>, model: string, op: Operation)
    ensures OfTheSteps(ScopeFlat(r, model, op))
  {
    hide Scopes;
    forall step, k | 0 <= k < |ScopeMiddlewaresOf(step, r.Of(step), model, op)|
      ensures ScopeMiddlewaresOf(step, r.Of(step), model, op)[k].origin.Registered?
    {
      ScopesCarry(step, r.Of(step), |r.Of(step)|, model, op, k);
    }
    assert r.Of(Auth) == r.auth && r.Of(Deserialize) == r.deserialize && r.Of(Validate) == r.validate;
    assert r.Of(Service) == r.service && r.Of(DB) == r.db && r.Of(Response) == r.response;
  }
  // ---- the order of the segments ----------------------------------------------------------

  /** The segment an origin belongs to: scope providers of every step stand together
      between the server's own filters and Validate. */
  ghost function Place<S>(r: Registries<S>, o: Origin): int {
    match o
    case Registered(step, i) => if i < |r.Of(step)| && r.Of(step)[i].providesScope then 3 else OfStep(step)
    case Default(step) => OfStep(step)
    case ServerSet => 2
    case Strip => 5
    case _ => -1
  }

  function OfStep(step: Step): int {
    match step case Auth => 0 case Deserialize => 1 case Validate => 4 case Service => 6 case DB => 7 case Response => 8
  }

  ghost predicate AllAt<S>(r: Registries<S>, ns: seq<Named<S>>, lo: int, hi: int) {
    && (forall i :: 0 <= i < |ns| ==> lo <= Place(r, ns[i].origin) <= hi)
    && (forall i, j :: 0 <= i < j < |ns| ==> Place(r, ns[i].origin) <= Place(r, ns[j].origin))
  }

  lemma StepPlaced<S(!new)>(b: Builtins<S>, r: Registries<S>, step: Step, model: string, op: Operation)
    ensures AllAt(r, StepFlat(b, r, step, model, op), OfStep(step), OfStep(step))
  {
    hide Composed;
    var ns := StepFlat(b, r, step, model, op);
    forall k | 0 <= k < |ns| ensures Place(r, ns[k].origin) == OfStep(step) {
      ComposedCarries(step, b.default(step), r.Of(step), model, op, k);
    }
  }

  lemma ScopePlaced<S(!new)>(r: Registries<S>, model: string, op: Operation)
    ensures AllAt(r, ScopeFlat(r, model, op), 3, 3)
  {
    hide Scopes;
    forall step, k | 0 <= k < |ScopeMiddlewaresOf(step, r.Of(step), model, op)|
      ensures Place(r, ScopeMiddlewaresOf(step, r.Of(step), model, op)[k].origin) == 3
    {
      ScopesCarry(step, r.Of(step), |r.Of(step)|, model, op, k);
    }
    assert r.Of(Auth) == r.auth && r.Of(Deserialize) == r.deserialize && r.Of(Validate) == r.validate;
    assert r.Of(Service) == r.service && r.Of(DB) == r.db && r.Of(Response) == r.response;
  }

  lemma AllAtConcat<S>(r: Registries<S>, s: seq<Named<S>>, t: seq<Named<S>>, a: int, b: int, c: int, d: int)
    requires AllAt(r, s, a, b) && AllAt(r, t, c, d) && a <= b <= c <= d
    ensures AllAt(r, s + t, a, d)
  {
    hide Place;
  }

  /** Auth, Deserialize, the server's filters, the scope, Validate, the strip, Service,
      DB, Response: no middleware runs before one of an earlier segment. */
  lemma SegmentsInOrder<S(!new)>(b: Builtins<S>, r: Registries<S>, model: string, op: Operation, i: nat, j: nat)
    requires i < j < |FullFlat(b, r, model, op)|
    ensures Place(r, FullFlat(b, r, model, op)[i].origin) <= Place(r, FullFlat(b, r, model, op)[j].origin)
  {
    hide StepFlat, ScopeFlat;
    forall step ensures AllAt(r, StepFlat(b, r, step, model, op), OfStep(step), OfStep(step)) { StepPlaced(b, r, step, model, op); }
    ScopePlaced(r, model, op);
    SegmentsPlaced(b, r, model, op);
  }

  lemma SegmentsPlaced<S(!new)>(b: Builtins<S>, r: Registries<S>, model: string, op: Operation)
    requires forall step :: AllAt(r, StepFlat(b, r, step, model, op), OfStep(step), OfStep(step))
    requires AllAt(r, ScopeFlat(r, model, op), 3, 3)
    ensures AllAt(r, FullFlat(b, r, model, op), 0, 8)
  {
    hide StepFlat, ScopeFlat, AllAt;
    var x, z := [Segment(ServerSet, b.serverSet)], [Segment(Strip, b.strip)];
    LonePlaced(r, Segment(ServerSet, b.serverSet), 2);
    LonePlaced(r, Segment(Strip, b.strip), 5);
    var q := StepFlat(b, r, DB, model, op) + StepFlat(b, r, Response, model, op);
    var s := StepFlat(b, r, Service, model, op) + q;
    AllAtConcat(r, StepFlat(b, r, DB, model, op), StepFlat(b, r, Response, model, op), 7, 7, 8, 8);
    AllAtConcat(r, StepFlat(b, r, Service, model, op), q, 6, 6, 7, 8);
    AllAtConcat(r, z, s, 5, 5, 6, 8);
    AllAtConcat(r, StepFlat(b, r, Validate, model, op), z + s, 4, 4, 5, 8);
    AllAtConcat(r, StepFlat(b, r, Deserialize, model, op), x, 1, 1, 2, 2);
    AllAtConcat(r, StepFlat(b, r, Auth, model, op), StepFlat(b, r, Deserialize, model, op) + x, 0, 0, 1, 2);
    AllAtConcat(r, ScopeFlat(r, model, op), AfterScope(b, r, model, op), 3, 3, 4, 8);
    AllAtConcat(r, BeforeScope(b, r, model, op), ScopeFlat(r, model, op) + AfterScope(b, r, model, op), 0, 2, 3, 8);
  }

  lemma LonePlaced<S>(r: Registries<S>, n: Named<S>, at: int)
    requires Place(r, n.origin) == at
    ensures AllAt(r, [n], at, at)
  {
  }

  /** A handler that fails ends an action: what stands behind it, its response middleware
      and the Response step, does not run. */
  lemma FailedHandlerEnds<S(!new)>(handler: S -> (S, Error), rest: seq<Named<S>>, s: S, next: S -> Outcome<S>)
    requires handler(s).1.Some?
    ensures RunFlat([HandlerNamed(handler)] + rest, s, next) == Outcome(handler(s).0, handler(s).1, [])
  {
    var ms := [HandlerNamed(handler)] + rest;
    assert ms[0] == HandlerNamed(handler) && ms[0].body(s) == Return(handler(s).0, handler(s).1);
  }
}
