/** One pipeline from its registrations to what a request goes through. */
module PipelineSample {
  import opened Wrappers
  import opened Chain
  import opened Registry
  import opened Pipeline
  import opened PipelineCache

  // A request is the list of what it went through; each middleware signs it and
  // goes on.

  type Signed = seq<string>

  function Signs(name: string): Signed -> Prog<Signed> {
    s => CallNext(s + [name], imap[])
  }

  function Sign(name: string, position: Position, providesScope: bool): Registration<Signed> {
    Registration(Signs(name), [], [], position, name, providesScope)
  }

  const SIGNING := Builtins((step: Step) => Signs(DisplayName(step)), (s: Signed) => s + ["server"], (s: Signed) => s + ["strip"])

  const ON_AUTH := [Sign("jwt", Before, false), Sign("tenant", Before, true), Sign("role", Before, false)]
  const ON_SERVICE := [Sign("audit", After, false)]
  const ON_DB := [Sign("store", Replace, false), Sign("archive", Replace, false)]

  /** ns sign with these names, in this order. */
  ghost predicate SignAs(ns: seq<Named<Signed>>, names: seq<string>) {
    |ns| == |names| && forall k, s :: 0 <= k < |ns| ==> ns[k].body(s) == CallNext(s + [names[k]], imap[])
  }

  lemma SignAsConcat(a: seq<Named<Signed>>, x: seq<string>, b: seq<Named<Signed>>, y: seq<string>)
    requires SignAs(a, x) && SignAs(b, y)
    ensures SignAs(a + b, x + y)
  {
  }

  lemma {:induction false} SignedInTurn(ns: seq<Named<Signed>>, names: seq<string>, s: Signed, next: Signed -> Outcome<Signed>)
    requires SignAs(ns, names)
    ensures RunFlat(ns, s, next).s == next(s + names).s
    decreases |ns|
  {
    if ns == [] {
      assert s + names == s;
    } else {
      var rest := x => RunFlat(ns[1..], x, next);
      SignedInTurn(ns[1..], names[1..], s + [names[0]], next);
      assert s + [names[0]] + names[1..] == s + names;
      assert ns[0].body(s) == CallNext(s + [names[0]], imap[]);
      assert RunNamed(ns[0], s, rest).s == rest(s + [names[0]]).s;
    }
  }

  /** A step without registrations runs its built-in handler. */
  lemma BareStep(step: Step, model: string, op: Operation)
    ensures SignAs(Composed(step, SIGNING.default(step), [], model, op), [DisplayName(step)])
    ensures ScopeMiddlewaresOf<Signed>(step, [], model, op) == []
  {
  }

  lemma AuthPlaced(model: string, op: Operation)
    ensures Placed(Auth, ON_AUTH, 3, model, op, Before) == [NamedAt(Auth, ON_AUTH, 0), NamedAt(Auth, ON_AUTH, 2)]
    ensures Placed(Auth, ON_AUTH, 3, model, op, After) == []
  {
    var ms := ON_AUTH;
    assert Placed(Auth, ms, 0, model, op, Before) == [] && Placed(Auth, ms, 0, model, op, After) == [];
    assert Placed(Auth, ms, 1, model, op, Before) == [NamedAt(Auth, ms, 0)];
    assert Placed(Auth, ms, 2, model, op, Before) == [NamedAt(Auth, ms, 0)];
    assert Placed(Auth, ms, 1, model, op, After) == [] && Placed(Auth, ms, 2, model, op, After) == [];
  }

  lemma AuthCore(model: string, op: Operation)
    ensures Core(Auth, SIGNING.default(Auth), ON_AUTH, 3, model, op) == Core(Auth, SIGNING.default(Auth), ON_AUTH, 0, model, op)
    ensures Scopes(Auth, ON_AUTH, 3, model, op) == [ScopeNamedAt(Auth, ON_AUTH, 1)]
  {
    var ms := ON_AUTH;
    assert Core(Auth, SIGNING.default(Auth), ms, 2, model, op) == Core(Auth, SIGNING.default(Auth), ms, 1, model, op);
    assert Scopes(Auth, ms, 0, model, op) == [] && Scopes(Auth, ms, 1, model, op) == [];
    assert Scopes(Auth, ms, 2, model, op) == [ScopeNamedAt(Auth, ms, 1)];
  }

  lemma AuthStep(model: string, op: Operation)
    ensures SignAs(Composed(Auth, SIGNING.default(Auth), ON_AUTH, model, op), ["jwt", "role", "Auth"])
    ensures SignAs(ScopeMiddlewaresOf(Auth, ON_AUTH, model, op), ["tenant"])
  {
    hide AppliesTo, InChain, Placed, Scopes;
    AuthPlaced(model, op);
    AuthCore(model, op);
  }

  lemma ServiceStep()
    ensures SignAs(Composed(Service, SIGNING.default(Service), ON_SERVICE, "Post", Create), ["Service", "audit"])
    ensures ScopeMiddlewaresOf(Service, ON_SERVICE, "Post", Create) == []
  {
    var ms := ON_SERVICE;
    assert Placed(Service, ms, 0, "Post", Create, Before) == [] && Placed(Service, ms, 0, "Post", Create, After) == [];
    assert Placed(Service, ms, 1, "Post", Create, Before) == [] && Placed(Service, ms, 1, "Post", Create, After) == [NamedAt(Service, ms, 0)];
    assert Core(Service, SIGNING.default(Service), ms, 1, "Post", Create) == Core(Service, SIGNING.default(Service), ms, 0, "Post", Create);
    assert Scopes(Service, ms, 0, "Post", Create) == [];
  }

  lemma DBStep()
    ensures SignAs(Composed(DB, SIGNING.default(DB), ON_DB, "Post", Create), ["archive"])
    ensures ScopeMiddlewaresOf(DB, ON_DB, "Post", Create) == []
  {
    var ms := ON_DB;
    assert Placed(DB, ms, 0, "Post", Create, Before) == [] && Placed(DB, ms, 0, "Post", Create, After) == [];
    assert Placed(DB, ms, 1, "Post", Create, Before) == [] && Placed(DB, ms, 1, "Post", Create, After) == [];
    assert Placed(DB, ms, 2, "Post", Create, Before) == [] && Placed(DB, ms, 2, "Post", Create, After) == [];
    assert Core(DB, SIGNING.default(DB), ms, 2, "Post", Create) == NamedAt(DB, ms, 1);
    assert Scopes(DB, ms, 0, "Post", Create) == [] && Scopes(DB, ms, 1, "Post", Create) == [];
  }

  lemma SegmentsSign()
    ensures SignAs([Segment(ServerSet, SIGNING.serverSet)], ["server"]) && SignAs([Segment(Strip, SIGNING.strip)], ["strip"])
  {
  }

  const REGISTERED := Registries(ON_AUTH, [], [], ON_SERVICE, ON_DB, [])

  lemma SampleFlat()
    ensures SignAs(FullFlat(SIGNING, REGISTERED, "Post", Create),
                   ["jwt", "role", "Auth", "Deserialize", "server", "tenant", "Validate", "strip", "Service", "audit", "archive", "Response"])
  {
    hide SignAs, Composed, ScopeMiddlewaresOf, Segment;
    AuthStep("Post", Create);
    ServiceStep();
    DBStep();
    SegmentsSign();
    BareStep(Deserialize, "Post", Create);
    BareStep(Validate, "Post", Create);
    BareStep(Response, "Post", Create);
    var b, r := SIGNING, REGISTERED;
    var a, d, v := StepFlat(b, r, Auth, "Post", Create), StepFlat(b, r, Deserialize, "Post", Create), StepFlat(b, r, Validate, "Post", Create);
    var s, q, t := StepFlat(b, r, Service, "Post", Create), StepFlat(b, r, DB, "Post", Create), StepFlat(b, r, Response, "Post", Create);
    var x, z := [Segment(ServerSet, b.serverSet)], [Segment(Strip, b.strip)];
    SignAsConcat(q, ["archive"], t, ["Response"]);
    SignAsConcat(s, ["Service", "audit"], q + t, ["archive"] + ["Response"]);
    var tail := ["Service", "audit"] + (["archive"] + ["Response"]);
    SignAsConcat(z, ["strip"], s + (q + t), tail);
    SignAsConcat(v, ["Validate"], z + (s + (q + t)), ["strip"] + tail);
    SignAsConcat(d, ["Deserialize"], x, ["server"]);
    SignAsConcat(a, ["jwt", "role", "Auth"], d + x, ["Deserialize"] + ["server"]);
    var y := ScopeFlat(r, "Post", Create);
    assert y == ScopeMiddlewaresOf(Auth, ON_AUTH, "Post", Create);
    SignAsConcat(y, ["tenant"], AfterScope(b, r, "Post", Create), ["Validate"] + (["strip"] + tail));
    var front, back := ["jwt", "role", "Auth"] + (["Deserialize"] + ["server"]), ["tenant"] + (["Validate"] + (["strip"] + tail));
    SignAsConcat(BeforeScope(b, r, "Post", Create), front, y + AfterScope(b, r, "Post", Create), back);
    assert front + back ==
           ["jwt", "role", "Auth", "Deserialize", "server", "tenant", "Validate", "strip", "Service", "audit", "archive", "Response"];
  }

  ghost function Ends(s: Signed): Outcome<Signed> {
    Outcome(s, None, [])
  }

  /** A token check, a tenant scope and a role check on Auth, an audit after Service,
      and two replacements of the DB step: the request goes through each in its
      place, the first replacement never. */
  method RunSamplePipeline() returns (chain: Middleware<Signed>)
    ensures Run(chain, [], Ends).s ==
            ["jwt", "role", "Auth", "Deserialize", "server", "tenant", "Validate", "strip", "Service", "audit", "archive", "Response"]
  {
    hide RunFlat, Run, FullChain, FullFlat, SignAs, RequestPipeline.Valid;
    var p := new RequestPipeline(SIGNING);
    var panicked := p.Register(Auth, Sign("jwt", Before, false));
    panicked := p.Register(Auth, Sign("tenant", Before, true));
    panicked := p.Register(Auth, Sign("role", Before, false));
    panicked := p.Register(Service, Sign("audit", After, false));
    panicked := p.Register(DB, Sign("store", Replace, false));
    panicked := p.Register(DB, Sign("archive", Replace, false));
    p.Freeze();
    assert p.Regs() == REGISTERED;
    chain := p.ChainFor("Post", Create);
    SampleFlat();
    PipelineIsFlat(SIGNING, REGISTERED, "Post", Create, [], Ends);
    var names := ["jwt", "role", "Auth", "Deserialize", "server", "tenant", "Validate", "strip", "Service", "audit", "archive", "Response"];
    SignedInTurn(FullFlat(SIGNING, REGISTERED, "Post", Create), names, [], Ends);
    assert [] + names == names;
  }

  // ---- an action ----------------------------------------------------------------------------

  const LIMITED := [Signs("limit")]
  const LOGGED := [Signs("log")]

  function Handles(s: Signed): (Signed, Error) {
    (s + ["handler"], None)
  }

  lemma OwnSign()
    ensures SignAs(PerActionNamed(false, LIMITED), ["limit"]) && SignAs(PerActionNamed(true, LOGGED), ["log"])
    ensures SignAs([HandlerNamed(Handles)], ["handler"])
  {
    var h := HandlerNamed(Handles);
    forall s: Signed ensures h.body(s) == CallNext(s + ["handler"], imap[]) {
      assert Handles(s) == (s + ["handler"], None);
    }
    assert [h][0].body == h.body;
  }

  lemma ActionScope()
    ensures ScopeFlat(REGISTERED, "publish", Action) == ScopeMiddlewaresOf(Auth, ON_AUTH, "publish", Action)
  {
    hide ScopeMiddlewaresOf;
    NoScope(Deserialize, []);
    NoScope(Validate, []);
    NoScope(Service, ON_SERVICE);
    NoScope(DB, ON_DB);
    NoScope(Response, []);
  }

  lemma NoScope(step: Step, ms: seq<Registration<Signed>>)
    requires ms == [] || OpSkipsStep(Action, step)
    ensures ScopeMiddlewaresOf(step, ms, "publish", Action) == []
  {
  }

  lemma SampleActionFlat()
    ensures SignAs(ActionFlat(SIGNING, REGISTERED, "publish", Action, LIMITED, Handles, LOGGED),
                   ["jwt", "role", "Auth", "tenant", "limit", "handler", "log", "Response"])
  {
    hide SignAs, Composed, ScopeMiddlewaresOf, PerActionNamed, HandlerNamed, ScopeFlat;
    var b, r := SIGNING, REGISTERED;
    AuthStep("publish", Action);
    BareStep(Response, "publish", Action);
    ActionScope();
    OwnSign();
    var a, t := StepFlat(b, r, Auth, "publish", Action), StepFlat(b, r, Response, "publish", Action);
    var y, m, h, n := ScopeFlat(r, "publish", Action), PerActionNamed(false, LIMITED), [HandlerNamed(Handles)], PerActionNamed(true, LOGGED);
    SignAsConcat(n, ["log"], t, ["Response"]);
    SignAsConcat(h, ["handler"], n + t, ["log"] + ["Response"]);
    SignAsConcat(m, ["limit"], h + (n + t), ["handler"] + (["log"] + ["Response"]));
    var own := ["limit"] + (["handler"] + (["log"] + ["Response"]));
    SignAsConcat(y, ["tenant"], m + (h + (n + t)), own);
    SignAsConcat(a, ["jwt", "role", "Auth"], y + (m + (h + (n + t))), ["tenant"] + own);
    assert ["jwt", "role", "Auth"] + (["tenant"] + own) == ["jwt", "role", "Auth", "tenant", "limit", "handler", "log", "Response"];
  }

  /** An action with the same registrations and middleware of its own: the skipped steps
      and what is registered on them do not run, and the tenant scope still does. */
  method RunSampleAction() returns (chain: Middleware<Signed>)
    ensures Run(chain, [], Ends).s == ["jwt", "role", "Auth", "tenant", "limit", "handler", "log", "Response"]
  {
    hide RunFlat, Run, ActionChain, ActionFlat, SignAs, RequestPipeline.Valid;
    var p := new RequestPipeline(SIGNING);
    var panicked := p.Register(Auth, Sign("jwt", Before, false));
    panicked := p.Register(Auth, Sign("tenant", Before, true));
    panicked := p.Register(Auth, Sign("role", Before, false));
    panicked := p.Register(Service, Sign("audit", After, false));
    panicked := p.Register(DB, Sign("store", Replace, false));
    panicked := p.Register(DB, Sign("archive", Replace, false));
    assert p.Regs() == REGISTERED;
    chain := p.ActionChainFor("publish", Action, LIMITED, Handles, LOGGED);
    SampleActionFlat();
    ActionIsFlat(SIGNING, REGISTERED, "publish", Action, LIMITED, Handles, LOGGED, [], Ends);
    var names := ["jwt", "role", "Auth", "tenant", "limit", "handler", "log", "Response"];
    SignedInTurn(ActionFlat(SIGNING, REGISTERED, "publish", Action, LIMITED, Handles, LOGGED), names, [], Ends);
    assert [] + names == names;
  }
}
