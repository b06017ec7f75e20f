/** One step's registrations and the chain they compose for a model and operation. */
module Registry {
  import opened Wrappers
  import opened Chain

  datatype Operation =
    | Create | Read | Update | Delete | List | Options | Head | ReadAttachment | ReadHistory
    | Action | Search | Export | PresignUpload

  datatype Position = Before | After | Replace

  datatype Registration<!S(==)> = Registration(
    fn: S -> Prog<S>, models: seq<string>, operations: seq<Operation>, position: Position, name: string, providesScope: bool)

  // ---- who applies -------------------------------------------------------------------

  function DerivedOperations(op: Operation): seq<Operation> {
    match op case List => [Export] case Read => [ReadAttachment, ReadHistory] case _ => []
  }

  predicate OperationCovers(registered: Operation, actual: Operation) {
    actual in DerivedOperations(registered)
  }

  predicate AppliesTo<S>(m: Registration<S>, model: string, op: Operation) {
    && (m.models == [] || model in m.models)
    && (m.operations == [] || exists o :: o in m.operations && (o == op || OperationCovers(o, op)))
  }

  /** A registration applies when its models and its operations are unrestricted or
      name the request's: a list names its export too, a read its attachment and
      history reads. */
  lemma AppliesIff<S>(m: Registration<S>, model: string, op: Operation)
    ensures AppliesTo(m, model, op) <==>
            && (|m.models| == 0 || model in m.models)
            && (|m.operations| == 0 || op in m.operations || (op == Export && List in m.operations)
                || ((op == ReadAttachment || op == ReadHistory) && Read in m.operations))
  {
    if op == Export && List in m.operations { assert OperationCovers(List, Export); }
    if op == ReadAttachment && Read in m.operations { assert OperationCovers(Read, ReadAttachment); }
    if op == ReadHistory && Read in m.operations { assert OperationCovers(Read, ReadHistory); }
  }

  /** Scoping a list scopes its export, scoping a read scopes the attachment and
      history reads, and never the other way round. */
  lemma DerivedReadsAreCovered<S>(m: Registration<S>, model: string)
    ensures AppliesTo(m, model, List) ==> AppliesTo(m, model, Export)
    ensures AppliesTo(m, model, Read) ==> AppliesTo(m, model, ReadAttachment) && AppliesTo(m, model, ReadHistory)
    ensures m.operations == [Export] ==> !AppliesTo(m, model, List)
    ensures m.operations == [ReadHistory] ==> !AppliesTo(m, model, Read) && !AppliesTo(m, model, ReadAttachment)
  {
    if AppliesTo(m, model, List) && m.operations != [] {
      var o :| o in m.operations && (o == List || OperationCovers(o, List));
      assert o == List && OperationCovers(List, Export);
    }
    if AppliesTo(m, model, Read) && m.operations != [] {
      var o :| o in m.operations && (o == Read || OperationCovers(o, Read));
      assert o == Read && OperationCovers(Read, ReadAttachment) && OperationCovers(Read, ReadHistory);
    }
  }

  function SkippedSteps(op: Operation): seq<Step> {
    match op
    case Action => [Deserialize, Validate, Service, DB]
    case Search => [Deserialize, Validate, Service, DB]
    case PresignUpload => [Deserialize, Validate, Service, DB]
    case _ => []
  }

  predicate OpSkipsStep(op: Operation, step: Step) {
    step in SkippedSteps(op)
  }

  function DisplayName(step: Step): string {
    match step
    case Auth => "Auth" case Deserialize => "Deserialize" case Validate => "Validate"
    case Service => "Service" case DB => "DB" case Response => "Response"
  }

  // ---- the chain a step composes --------------------------------------------------------

  /** Runs in the step's own chain at this position. */
  predicate InChain<S>(m: Registration<S>, model: string, op: Operation, position: Position) {
    !m.providesScope && AppliesTo(m, model, op) && m.position == position
  }

  function NamedAt<S>(step: Step, ms: seq<Registration<S>>, i: nat): Named<S>
    requires i < |ms|
  {
    Named(Registered(step, i), DisplayName(step), ms[i].name, true, ms[i].fn)
  }

  /** The applicable registrations at a position among the first n, in order. */
  function Placed<S>(step: Step, ms: seq<Registration<S>>, n: nat, model: string, op: Operation, position: Position): seq<Named<S>>
    requires n <= |ms|
  {
    if n == 0 then []
    else
      Placed(step, ms, n - 1, model, op, position)
      + if InChain(ms[n - 1], model, op, position) then [NamedAt(step, ms, n - 1)] else []
  }

  /** The last applicable Replace among the first n, or the built-in handler. */
  function Core<S>(step: Step, default: S -> Prog<S>, ms: seq<Registration<S>>, n: nat, model: string, op: Operation): Named<S>
    requires n <= |ms|
  {
    if n == 0 then Named(Default(step), DisplayName(step), "default", true, default)
    else if InChain(ms[n - 1], model, op, Replace) then NamedAt(step, ms, n - 1)
    else Core(step, default, ms, n - 1, model, op)
  }

  function Composed<S>(step: Step, default: S -> Prog<S>, ms: seq<Registration<S>>, model: string, op: Operation): seq<Named<S>> {
    Placed(step, ms, |ms|, model, op, Before) + [Core(step, default, ms, |ms|, model, op)] + Placed(step, ms, |ms|, model, op, After)
  }

  function ScopeNamedAt<S>(step: Step, ms: seq<Registration<S>>, i: nat): Named<S>
    requires i < |ms|
  {
    Named(Registered(step, i), DisplayName(step) + "\U{2192}Scope", ms[i].name, true, ms[i].fn)
  }

  function Scopes<S>(step: Step, ms: seq<Registration<S>>, n: nat, model: string, op: Operation): seq<Named<S>>
    requires n <= |ms|
  {
    if n == 0 then []
    else Scopes(step, ms, n - 1, model, op)
         + if ms[n - 1].providesScope && AppliesTo(ms[n - 1], model, op) then [ScopeNamedAt(step, ms, n - 1)] else []
  }

  function ScopeMiddlewaresOf<S>(step: Step, ms: seq<Registration<S>>, model: string, op: Operation): seq<Named<S>> {
    if OpSkipsStep(op, step) then [] else Scopes(step, ms, |ms|, model, op)
  }

  // ---- conservation within a step ----------------------------------------------------------

  /** i is the applicable Replace that wins. */
  predicate Winner<S>(ms: seq<Registration<S>>, n: nat, model: string, op: Operation, i: nat)
    requires n <= |ms|
  {
    i < n && InChain(ms[i], model, op, Replace) && forall j :: i < j < n ==> !InChain(ms[j], model, op, Replace)
  }

  lemma NothingCounts<S>(o: Origin)
    ensures Count<S>([], o) == 0
  {
  }

  lemma {:induction false} PlacedCounts<S>(step: Step, ms: seq<Registration<S>>, n: nat, model: string, op: Operation, position: Position, o: Origin)
    requires n <= |ms|
    ensures Count(Placed(step, ms, n, model, op, position), o)
            == if o.Registered? && o.step == step && o.index < n && InChain(ms[o.index], model, op, position) then 1 else 0
  {
    hide AppliesTo, InChain, Count;
    NothingCounts<S>(o);
    if n > 0 {
      PlacedCounts(step, ms, n - 1, model, op, position, o);
      CountConcat(Placed(step, ms, n - 1, model, op, position), if InChain(ms[n - 1], model, op, position) then [NamedAt(step, ms, n - 1)] else [], o);
      CountOne(NamedAt(step, ms, n - 1), o);
    }
  }

  lemma {:induction false} CoreIsWinner<S>(step: Step, default: S -> Prog<S>, ms: seq<Registration<S>>, n: nat, model: string, op: Operation, o: Origin)
    requires n <= |ms| && o.Registered?
    ensures Core(step, default, ms, n, model, op).origin == o <==> o.step == step && Winner(ms, n, model, op, o.index)
  {
    hide AppliesTo, InChain;
    if n > 0 { CoreIsWinner(step, default, ms, n - 1, model, op, o); }
  }

  lemma {:induction false} ScopesCount<S>(step: Step, ms: seq<Registration<S>>, n: nat, model: string, op: Operation, o: Origin)
    requires n <= |ms|
    ensures Count(Scopes(step, ms, n, model, op), o)
            == if o.Registered? && o.step == step && o.index < n && ms[o.index].providesScope && AppliesTo(ms[o.index], model, op) then 1 else 0
  {
    hide AppliesTo, Count;
    NothingCounts<S>(o);
    if n > 0 {
      ScopesCount(step, ms, n - 1, model, op, o);
      CountConcat(Scopes(step, ms, n - 1, model, op),
                  if ms[n - 1].providesScope && AppliesTo(ms[n - 1], model, op) then [ScopeNamedAt(step, ms, n - 1)] else [], o);
      CountOne(ScopeNamedAt(step, ms, n - 1), o);
    }
  }

  /** The step's chain holds each applicable registration once, except scope
      providers and every Replace but the last; and nothing of another step. */
  lemma ComposedCounts<S>(step: Step, default: S -> Prog<S>, ms: seq<Registration<S>>, model: string, op: Operation, o: Origin)
    requires o.Registered?
    ensures Count(Composed(step, default, ms, model, op), o)
            == if o.step == step && o.index < |ms| && !ms[o.index].providesScope && AppliesTo(ms[o.index], model, op)
                  && (ms[o.index].position != Replace || Winner(ms, |ms|, model, op, o.index)) then 1 else 0
  {
    hide AppliesTo, Placed, Core;
    var b, c, a := Placed(step, ms, |ms|, model, op, Before), Core(step, default, ms, |ms|, model, op), Placed(step, ms, |ms|, model, op, After);
    PlacedCounts(step, ms, |ms|, model, op, Before, o);
    PlacedCounts(step, ms, |ms|, model, op, After, o);
    CoreIsWinner(step, default, ms, |ms|, model, op, o);
    CountConcat(b + [c], a, o);
    CountConcat(b, [c], o);
    assert [c][1..] == [];
  }

  // ---- what runs under a tag ---------------------------------------------------------------

  /** What stands under a registration's tag is that registration's function and name. */
  ghost predicate Carries<S>(step: Step, ms: seq<Registration<S>>, n: Named<S>) {
    n.origin.Registered? && n.origin.step == step && n.origin.index < |ms|
    && n.body == ms[n.origin.index].fn && n.name == ms[n.origin.index].name && n.traced
  }

  lemma {:induction false} PlacedCarry<S>(step: Step, ms: seq<Registration<S>>, n: nat, model: string, op: Operation, position: Position, k: nat)
    requires n <= |ms| && k < |Placed(step, ms, n, model, op, position)|
    ensures Carries(step, ms, Placed(step, ms, n, model, op, position)[k])
    ensures !ms[Placed(step, ms, n, model, op, position)[k].origin.index].providesScope
  {
    hide AppliesTo;
    if n > 0 && k < |Placed(step, ms, n - 1, model, op, position)| { PlacedCarry(step, ms, n - 1, model, op, position, k); }
  }

  lemma {:induction false} ScopesCarry<S>(step: Step, ms: seq<Registration<S>>, n: nat, model: string, op: Operation, k: nat)
    requires n <= |ms| && k < |Scopes(step, ms, n, model, op)|
    ensures Carries(step, ms, Scopes(step, ms, n, model, op)[k])
    ensures ms[Scopes(step, ms, n, model, op)[k].origin.index].providesScope
  {
    hide AppliesTo;
    if n > 0 && k < |Scopes(step, ms, n - 1, model, op)| { ScopesCarry(step, ms, n - 1, model, op, k); }
  }

  lemma {:induction false} CoreCarries<S>(step: Step, default: S -> Prog<S>, ms: seq<Registration<S>>, n: nat, model: string, op: Operation)
    requires n <= |ms|
    ensures var c := Core(step, default, ms, n, model, op);
            (Carries(step, ms, c) && !ms[c.origin.index].providesScope) || (c.origin == Default(step) && c.body == default)
  {
    hide AppliesTo;
    if n > 0 { CoreCarries(step, default, ms, n - 1, model, op); }
  }

  /** Each member of a step's chain is a registered function under its own tag, no
      scope provider, or the built-in handler. */
  lemma ComposedCarries<S>(step: Step, default: S -> Prog<S>, ms: seq<Registration<S>>, model: string, op: Operation, k: nat)
    requires k < |Composed(step, default, ms, model, op)|
    ensures var c := Composed(step, default, ms, model, op)[k];
            (Carries(step, ms, c) && !ms[c.origin.index].providesScope) || (c.origin == Default(step) && c.body == default)
  {
    hide AppliesTo, Placed, Core;
    var b, a := Placed(step, ms, |ms|, model, op, Before), Placed(step, ms, |ms|, model, op, After);
    CoreCarries(step, default, ms, |ms|, model, op);
    if k < |b| {
      PlacedCarry(step, ms, |ms|, model, op, Before, k);
    } else if k > |b| {
      PlacedCarry(step, ms, |ms|, model, op, After, k - |b| - 1);
      assert Composed(step, default, ms, model, op)[k] == a[k - |b| - 1];
    }
  }

  // ---- order within a step ------------------------------------------------------------------

  /** Where in its step a middleware belongs: Before registrations in the order they
      were made, then the core, then After registrations in theirs. */
  function Slot<S>(ms: seq<Registration<S>>, o: Origin): int {
    if !o.Registered? || o.index >= |ms| then 0
    else match ms[o.index].position case Before => o.index - |ms| case Replace => 0 case After => o.index + 1
  }

  ghost predicate InOrder<S>(ms: seq<Registration<S>>, ns: seq<Named<S>>) {
    forall a, b :: 0 <= a < b < |ns| ==> Slot(ms, ns[a].origin) < Slot(ms, ns[b].origin)
  }

  lemma {:induction false} PlacedInOrder<S>(step: Step, ms: seq<Registration<S>>, n: nat, model: string, op: Operation, position: Position)
    requires n <= |ms| && position != Replace
    ensures InOrder(ms, Placed(step, ms, n, model, op, position))
    ensures forall a :: 0 <= a < |Placed(step, ms, n, model, op, position)| ==>
              var o := Placed(step, ms, n, model, op, position)[a].origin;
              o.Registered? && o.index < n && ms[o.index].position == position
  {
    hide AppliesTo;
    if n > 0 { PlacedInOrder(step, ms, n - 1, model, op, position); }
  }

  lemma {:induction false} CoreSlot<S>(step: Step, default: S -> Prog<S>, ms: seq<Registration<S>>, n: nat, model: string, op: Operation)
    requires n <= |ms|
    ensures Slot(ms, Core(step, default, ms, n, model, op).origin) == 0
  {
    hide AppliesTo;
    if n > 0 { CoreSlot(step, default, ms, n - 1, model, op); }
  }

  /** A step's chain runs its middleware in their slots' order. */
  lemma ComposedInOrder<S>(step: Step, default: S -> Prog<S>, ms: seq<Registration<S>>, model: string, op: Operation)
    ensures InOrder(ms, Composed(step, default, ms, model, op))
  {
    hide Placed, Core;
    var b, c, a := Placed(step, ms, |ms|, model, op, Before), Core(step, default, ms, |ms|, model, op), Placed(step, ms, |ms|, model, op, After);
    PlacedInOrder(step, ms, |ms|, model, op, Before);
    PlacedInOrder(step, ms, |ms|, model, op, After);
    CoreSlot(step, default, ms, |ms|, model, op);
    var all := b + [c] + a;
    forall i, j | 0 <= i < j < |all| ensures Slot(ms, all[i].origin) < Slot(ms, all[j].origin) {
      assert i < |b| ==> all[i] == b[i];
      assert j > |b| ==> all[j] == a[j - |b| - 1];
      if i > |b| { assert all[i] == a[i - |b| - 1]; }
      if j < |b| { assert all[j] == b[j]; }
    }
  }

  // ---- the registry -----------------------------------------------------------------------

  function Ones<S>(ns: seq<Named<S>>): seq<Middleware<S>> {
    seq(|ns|, i requires 0 <= i < |ns| => One(ns[i]))
  }

  type ChainKey = (string, Operation)

  class StepRegistry<S(==)> {
    const step: Step
    const defaultFn: S -> Prog<S>
    var middlewares: seq<Registration<S>>
    var frozen: bool
    var chains: map<ChainKey, Middleware<S>>

    constructor (step: Step, defaultFn: S -> Prog<S>)
      ensures this.step == step && this.defaultFn == defaultFn && middlewares == [] && !frozen && Valid()
    {
      this.step, this.defaultFn, middlewares, frozen, chains := step, defaultFn, [], false, map[];
    }

    ghost function Fresh(model: string, op: Operation): Middleware<S>
      reads this
    {
      Chain.Chain(Ones(Composed(step, defaultFn, middlewares, model, op)))
    }

    /** A cached chain is what composing again would give, and there are none before
        the freeze. */
    ghost predicate Valid()
      reads this
    {
      && (!frozen ==> chains == map[])
      && forall k :: k in chains ==> chains[k] == Fresh(k.0, k.1)
    }

    /** Panics once frozen. */
    method Register(m: Registration<S>) returns (panicked: bool)
      requires Valid()
      modifies this
      ensures Valid() && frozen == old(frozen) && chains == old(chains) && panicked == frozen
      ensures middlewares == if panicked then old(middlewares) else old(middlewares) + [m]
    {
      if frozen { return true; }
      middlewares := middlewares + [m];
      panicked := false;
    }

    method Freeze()
      requires Valid()
      modifies this`frozen
      ensures Valid() && frozen
    {
      frozen := true;
    }

    method Compose(model: string, op: Operation) returns (chain: Middleware<S>)
      ensures chain == Fresh(model, op)
    {
      hide AppliesTo;
      var before: seq<Named<S>>, after: seq<Named<S>> := [], [];
      var core := Named(Default(step), DisplayName(step), "default", true, defaultFn);
      var i := 0;
      while i < |middlewares|
        invariant 0 <= i <= |middlewares|
        invariant before == Placed(step, middlewares, i, model, op, Before) && after == Placed(step, middlewares, i, model, op, After)
        invariant core == Core(step, defaultFn, middlewares, i, model, op)
      {
        var m := middlewares[i];
        if !m.providesScope && AppliesTo(m, model, op) {
          match m.position {
            case Before => before := before + [NamedAt(step, middlewares, i)];
            case After => after := after + [NamedAt(step, middlewares, i)];
            case Replace => core := NamedAt(step, middlewares, i);
          }
        }
        i := i + 1;
      }
      chain := Chain.Chain(Ones(before + [core] + after));
    }

    /** From the cache once frozen; what is returned is always what composing at
        this moment gives, and entries are never changed. */
    method Build(model: string, op: Operation) returns (chain: Middleware<S>)
      requires Valid()
      modifies this`chains
      ensures Valid() && chain == Fresh(model, op)
      ensures forall k :: k in old(chains) ==> k in chains && chains[k] == old(chains)[k]
      ensures frozen ==> (model, op) in chains
    {
      if !frozen {
        chain := Compose(model, op);
        return;
      }
      var k := (model, op);
      if k in chains { return chains[k]; }
      chain := Compose(model, op);
      chains := chains[k := chain];
    }

    method ScopeMiddlewares(model: string, op: Operation) returns (out: seq<Named<S>>)
      ensures out == ScopeMiddlewaresOf(step, middlewares, model, op)
    {
      hide AppliesTo;
      out := [];
      if OpSkipsStep(op, step) { return; }
      var i := 0;
      while i < |middlewares|
        invariant 0 <= i <= |middlewares| && out == Scopes(step, middlewares, i, model, op)
      {
        if middlewares[i].providesScope && AppliesTo(middlewares[i], model, op) { out := out + [ScopeNamedAt(step, middlewares, i)]; }
        i := i + 1;
      }
    }
  }
}
