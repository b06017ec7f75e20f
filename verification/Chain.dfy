/** Continuation-passing middleware, chains of chains, and their flattening. */
module Chain {
  import opened Wrappers

  type Error = Option<string>

  /** What a middleware does with a request: return, or call next and go on with
      what it left. Trees of any finite depth call next any number of times, and a
      continuation the tree does not list returns what next returned. */
  datatype Prog<!S(==)> = Return(s: S, err: Error) | CallNext(s: S, after: imap<(S, Error), Prog<S>>)

  datatype Event = Enter(step: string, name: string) | Exit(step: string, name: string)

  /** The request as it is left, the error, and the trace log. */
  datatype Outcome<S> = Outcome(s: S, err: Error, trace: seq<Event>)

  datatype Step = Auth | Deserialize | Validate | Service | DB | Response

  /** Where a middleware in a chain came from. */
  datatype Origin = Default(step: Step) | Registered(step: Step, index: nat) | ServerSet | Strip | Handler | PerAction(response: bool, index: nat)

  datatype Named<!S(==)> = Named(origin: Origin, step: string, name: string, traced: bool, body: S -> Prog<S>)

  datatype Middleware<!S(==)> = One(fn: Named<S>) | Chain(ms: seq<Middleware<S>>)

  // ---- running -----------------------------------------------------------------------

  ghost function RunProg<S>(p: Prog<S>, next: S -> Outcome<S>): Outcome<S> {
    match p
    case Return(s, err) => Outcome(s, err, [])
    case CallNext(s, after) =>
      var r := next(s);
      if (r.s, r.err) !in after then r
      else
        var rest := RunProg(after[(r.s, r.err)], next);
        Outcome(rest.s, rest.err, r.trace + rest.trace)
  }

  ghost function RunNamed<S>(m: Named<S>, s: S, next: S -> Outcome<S>): Outcome<S> {
    var r := RunProg(m.body(s), next);
    if m.traced then Outcome(r.s, r.err, [Enter(m.step, m.name)] + r.trace + [Exit(m.step, m.name)]) else r
  }

  ghost function Run<S>(m: Middleware<S>, s: S, next: S -> Outcome<S>): Outcome<S>
    decreases m
  {
    match m
    case One(fn) => RunNamed(fn, s, next)
    case Chain(ms) => RunAll(ms, s, next)
  }

  /** Each middleware's next runs the rest of the list; after the last, the chain's
      own next. */
  ghost function RunAll<S>(ms: seq<Middleware<S>>, s: S, next: S -> Outcome<S>): Outcome<S>
    decreases ms
  {
    if ms == [] then next(s) else Run(ms[0], s, x => RunAll(ms[1..], x, next))
  }

  // ---- flattening ------------------------------------------------------------------------

  function Flatten<S>(m: Middleware<S>): seq<Named<S>>
    decreases m
  {
    match m
    case One(fn) => [fn]
    case Chain(ms) => FlattenAll(ms)
  }

  function FlattenAll<S>(ms: seq<Middleware<S>>): seq<Named<S>>
    decreases ms
  {
    if ms == [] then [] else Flatten(ms[0]) + FlattenAll(ms[1..])
  }

  /** A flat chain of middleware. */
  ghost function RunFlat<S>(ms: seq<Named<S>>, s: S, next: S -> Outcome<S>): Outcome<S>
    decreases |ms|
  {
    if ms == [] then next(s) else RunNamed(ms[0], s, x => RunFlat(ms[1..], x, next))
  }

  /** A traced middleware that passes its request on is logged before and after whatever
      comes behind it; one that does not is logged alone. */
  lemma TracedAround<S(!new)>(m: Named<S>, s: S, next: S -> Outcome<S>)
    requires m.traced
    ensures m.body(s).Return? ==> RunNamed(m, s, next) == Outcome(m.body(s).s, m.body(s).err, [Enter(m.step, m.name), Exit(m.step, m.name)])
    ensures m.body(s).CallNext? && m.body(s).after == imap[] ==>
              var r := next(m.body(s).s);
              RunNamed(m, s, next) == Outcome(r.s, r.err, [Enter(m.step, m.name)] + r.trace + [Exit(m.step, m.name)])
  {
    assert [Enter(m.step, m.name)] + [] + [Exit(m.step, m.name)] == [Enter(m.step, m.name), Exit(m.step, m.name)];
  }

  lemma {:induction false} ProgSees<S(!new)>(p: Prog<S>, f: S -> Outcome<S>, g: S -> Outcome<S>)
    requires forall x :: f(x) == g(x)
    ensures RunProg(p, f) == RunProg(p, g)
  {
    match p
    case Return(_, _) =>
    case CallNext(s, after) =>
      var r := f(s);
      assert g(s) == r;
      if (r.s, r.err) in after { ProgSees(after[(r.s, r.err)], f, g); }
  }

  /** A chain depends only on what its next does. */
  lemma {:induction false} FlatSees<S(!new)>(ms: seq<Named<S>>, s: S, f: S -> Outcome<S>, g: S -> Outcome<S>)
    requires forall x :: f(x) == g(x)
    ensures RunFlat(ms, s, f) == RunFlat(ms, s, g)
    decreases |ms|
  {
    if ms == [] {
      assert f(s) == g(s);
    } else {
      var f', g' := (x: S) => RunFlat(ms[1..], x, f), (x: S) => RunFlat(ms[1..], x, g);
      forall x ensures f'(x) == g'(x) { FlatSees(ms[1..], x, f, g); }
      ProgSees(ms[0].body(s), f', g');
    }
  }

  lemma {:induction false} FlatConcat<S(!new)>(a: seq<Named<S>>, b: seq<Named<S>>, s: S, next: S -> Outcome<S>)
    ensures RunFlat(a + b, s, next) == RunFlat(a, s, x => RunFlat(b, x, next))
    decreases |a|
  {
    if a == [] {
      assert a + b == b;
    } else {
      assert (a + b)[1..] == a[1..] + b;
      var rest := (x: S) => RunFlat(b, x, next);
      var f, g := (x: S) => RunFlat((a + b)[1..], x, next), (x: S) => RunFlat(a[1..], x, rest);
      forall x ensures f(x) == g(x) { FlatConcat(a[1..], b, x, next); }
      ProgSees(a[0].body(s), f, g);
    }
  }

  /** Running a chain of chains is running one flat chain: the same request, error
      and trace, for middleware that returns early, fails, or calls next again. */
  lemma {:induction false} RunIsFlat<S(!new)>(m: Middleware<S>, s: S, next: S -> Outcome<S>)
    ensures Run(m, s, next) == RunFlat(Flatten(m), s, next)
    decreases m
  {
    match m
    case One(fn) =>
      var f, g := next, (x: S) => RunFlat([fn][1..], x, next);
      forall x ensures f(x) == g(x) {}
      ProgSees(fn.body(s), f, g);
    case Chain(ms) => RunAllIsFlat(ms, s, next);
  }

  lemma {:induction false} RunAllIsFlat<S(!new)>(ms: seq<Middleware<S>>, s: S, next: S -> Outcome<S>)
    ensures RunAll(ms, s, next) == RunFlat(FlattenAll(ms), s, next)
    decreases ms
  {
    if ms != [] {
      var f, g := (x: S) => RunAll(ms[1..], x, next), (x: S) => RunFlat(FlattenAll(ms[1..]), x, next);
      forall x ensures f(x) == g(x) { RunAllIsFlat(ms[1..], x, next); }
      RunIsFlat(ms[0], s, f);
      FlatSees(Flatten(ms[0]), s, f, g);
      FlatConcat(Flatten(ms[0]), FlattenAll(ms[1..]), s, next);
    }
  }

  /** How often a middleware occurs in a flat chain. */
  function Count<S>(ms: seq<Named<S>>, o: Origin): nat {
    if ms == [] then 0 else (if ms[0].origin == o then 1 else 0) + Count(ms[1..], o)
  }

  lemma {:induction false} CountConcat<S>(a: seq<Named<S>>, b: seq<Named<S>>, o: Origin)
    ensures Count(a + b, o) == Count(a, o) + Count(b, o)
  {
    if a == [] {
      assert a + b == b;
    } else {
      assert (a + b)[1..] == a[1..] + b;
      CountConcat(a[1..], b, o);
    }
  }

  lemma CountOne<S>(n: Named<S>, o: Origin)
    ensures Count([n], o) == if n.origin == o then 1 else 0
  {
    assert [n][1..] == [];
  }

  /** If the first middleware returns without calling next, nothing after it runs. */
  lemma ShortCircuits<S(!new)>(ms: seq<Named<S>>, s: S, next: S -> Outcome<S>)
    requires ms != [] && ms[0].body(s).Return?
    ensures RunFlat(ms, s, next).s == ms[0].body(s).s && RunFlat(ms, s, next).err == ms[0].body(s).err
    ensures RunFlat(ms, s, next).trace == if ms[0].traced then [Enter(ms[0].step, ms[0].name), Exit(ms[0].step, ms[0].name)] else []
  {
    var e: seq<Event> := [Enter(ms[0].step, ms[0].name)];
    assert e + [] + [Exit(ms[0].step, ms[0].name)] == [Enter(ms[0].step, ms[0].name), Exit(ms[0].step, ms[0].name)];
  }
}
