/** The state-machine executor of `crates/kr0ki-behavior/src/machine.rs`. */
module MachineRuntime {
  import opened BehaviorIr
  import opened Graph
  import opened MachineValidation
  import opened Wrappers

  datatype TransitionTrace = TransitionTrace(transition: string, from: string, to: string, event: string,
                                             guard: Option<string>, effect: Option<string>, terminal: bool)

  datatype RuntimeError =
    | InvalidModel
    | Terminal(state: string)
    | NoTransition(state: string, event: string)
    | Ambiguous(state: string, event: string)
    | GuardError(name: string, message: string)
    | EffectError(name: string, message: string)

  /** What an application binds the guard and effect names to. A guard reads the application
      state; an effect may change it, also when it fails. */
  datatype Bindings<!World> = Bindings(
    guard: (World, string) -> Result<bool, string>,
    effect: (World, string) -> (World, Result<(), string>))

  class RuntimeContext<World> {
    const bindings: Bindings<World>
    var world: World

    constructor (bindings: Bindings<World>, world: World)
      ensures this.bindings == bindings && this.world == world
    {
      this.bindings, this.world := bindings, world;
    }

    function Guard(name: string): Result<bool, string>
      reads this
    {
      bindings.guard(world, name)
    }

    method Effect(name: string) returns (r: Result<(), string>)
      modifies this
      ensures (world, r) == bindings.effect(old(world), name)
    {
      var (next, outcome) := bindings.effect(world, name);
      world, r := next, outcome;
    }
  }

  predicate IsTerminal(m: StateMachine, state: string) {
    exists s :: s in m.states && s.id == state && s.terminal
  }

  // ---------------------------------------------------------------- one step

  datatype Selection =
    | Chosen(transition: Transition)
    | NothingEnabled
    | TwoEnabled
    | GuardFailed(name: string, message: string)

  datatype Query<!World> = Query(state: string, event: string, bindings: Bindings<World>, world: World) {
    predicate Matches(t: Transition) {
      t.from == state && t.event == event
    }

    function Verdict(t: Transition): Result<bool, string> {
      if t.guard.None? then Ok(true) else bindings.guard(world, t.guard.value)
    }

    predicate Enabled(t: Transition) {
      Matches(t) && Verdict(t) == Ok(true)
    }

    predicate Fails(t: Transition) {
      Matches(t) && Verdict(t).Err?
    }
  }

  /** The selection loop of `step` from transition `k` on, with `enabled` selected so far. */
  function Select<World>(ts: seq<Transition>, q: Query<World>, k: nat, enabled: Option<Transition>): Selection
    requires k <= |ts|
    decreases |ts| - k
  {
    if k == |ts| then
      if enabled.Some? then Chosen(enabled.value) else NothingEnabled
    else if !q.Matches(ts[k]) then Select(ts, q, k + 1, enabled)
    else
      match q.Verdict(ts[k])
      case Err(message) => GuardFailed(if ts[k].guard.Some? then ts[k].guard.value else "", message)
      case Ok(false) => Select(ts, q, k + 1, enabled)
      case Ok(true) => if enabled.Some? then TwoEnabled else Select(ts, q, k + 1, Some(ts[k]))
  }

  /** A configuration: the runtime's own fields and the application state. */
  datatype Config<World> = Config(state: string, trace: seq<TransitionTrace>, world: World)

  /** One `step` as a function of the configuration. */
  function StepConfig<World>(m: StateMachine, b: Bindings<World>, c: Config<World>, event: string)
    : (Config<World>, Result<TransitionTrace, RuntimeError>)
  {
    if IsTerminal(m, c.state) then (c, Err(Terminal(c.state)))
    else
      match Select(m.transitions, Query(c.state, event, b, c.world), 0, None)
      case NothingEnabled => (c, Err(NoTransition(c.state, event)))
      case TwoEnabled => (c, Err(Ambiguous(c.state, event)))
      case GuardFailed(name, message) => (c, Err(GuardError(name, message)))
      case Chosen(t) =>
        var entry := TransitionTrace(t.id, t.from, t.to, event, t.guard, t.effect, IsTerminal(m, t.to));
        if t.effect.None? then (Config(t.to, c.trace + [entry], c.world), Ok(entry))
        else
          var (world, outcome) := b.effect(c.world, t.effect.value);
          if outcome.Err? then (c.(world := world), Err(EffectError(t.effect.value, outcome.error)))
          else (Config(t.to, c.trace + [entry], world), Ok(entry))
  }

  class StateMachineRuntime<World> {
    const machine: StateMachine
    var state: string
    var trace: seq<TransitionTrace>

    constructor (machine: StateMachine)
      requires MachineValid(machine)
      ensures this.machine == machine && state == machine.initial && trace == []
    {
      this.machine, state, trace := machine, machine.initial, [];
    }

    ghost function View(context: RuntimeContext<World>): Config<World>
      reads this, context
    {
      Config(state, trace, context.world)
    }

    method Step(event: string, context: RuntimeContext<World>) returns (r: Result<TransitionTrace, RuntimeError>)
      modifies this, context
      ensures (View(context), r) == StepConfig(machine, context.bindings, old(View(context)), event)
    {
      if IsTerminal(machine, state) {
        return Err(Terminal(state));
      }
      ghost var q := Query(state, event, context.bindings, context.world);
      var enabled: Option<Transition> := None;
      for k := 0 to |machine.transitions|
        invariant state == old(state) && trace == old(trace) && context.world == old(context.world)
        invariant Select(machine.transitions, q, 0, None) == Select(machine.transitions, q, k, enabled)
      {
        var t := machine.transitions[k];
        if t.from == state && t.event == event {
          var selected := true;
          if t.guard.Some? {
            var verdict := context.Guard(t.guard.value);
            if verdict.Err? { return Err(GuardError(t.guard.value, verdict.error)); }
            selected := verdict.value;
          }
          if selected {
            if enabled.Some? { return Err(Ambiguous(state, event)); }
            enabled := Some(t);
          }
        }
      }
      if enabled.None? { return Err(NoTransition(state, event)); }
      var t := enabled.value;
      if t.effect.Some? {
        var outcome := context.Effect(t.effect.value);
        if outcome.Err? { return Err(EffectError(t.effect.value, outcome.error)); }
      }
      state := t.to;
      var entry := TransitionTrace(t.id, t.from, t.to, event, t.guard, t.effect, IsTerminal(machine, state));
      trace := trace + [entry];
      r := Ok(entry);
    }
  }

  /** `StateMachineRuntime::new`: only an accepted machine gets a runtime. */
  method NewRuntime<World>(m: StateMachine) returns (r: Result<StateMachineRuntime<World>, RuntimeError>)
    ensures r.Ok? <==> MachineValid(m)
    ensures r.Ok? ==> fresh(r.value) && r.value.machine == m && r.value.state == m.initial && r.value.trace == []
  {
    var ok := EnsureValid(m);
    if ok {
      var runtime := new StateMachineRuntime<World>(m);
      r := Ok(runtime);
    } else {
      r := Err(InvalidModel);
    }
  }

  // ---------------------------------------------------------------- what a step selects

  function Keep(ts: seq<Transition>, p: Transition -> bool): (r: seq<Transition>)
    ensures forall t :: t in r <==> t in ts && p(t)
  {
    if ts == [] then [] else (if p(ts[0]) then [ts[0]] else []) + Keep(ts[1..], p)
  }

  lemma {:induction false} KeepCounts(ts: seq<Transition>, p: Transition -> bool, t: Transition)
    ensures multiset(Keep(ts, p))[t] == if p(t) then multiset(ts)[t] else 0
  {
    if ts != [] {
      assert ts == [ts[0]] + ts[1..];
      KeepCounts(ts[1..], p, t);
    }
  }

  lemma {:induction false} KeepNone(ts: seq<Transition>, p: Transition -> bool)
    requires forall t :: t in ts ==> !p(t)
    ensures Keep(ts, p) == []
  {
    if ts != [] { KeepNone(ts[1..], p); }
  }

  lemma KeepPermuted(ts: seq<Transition>, us: seq<Transition>, p: Transition -> bool)
    requires multiset(ts) == multiset(us)
    ensures multiset(Keep(ts, p)) == multiset(Keep(us, p)) && |Keep(ts, p)| == |Keep(us, p)|
    ensures |Keep(ts, p)| == 1 ==> Keep(ts, p) == Keep(us, p)
  {
    forall t ensures multiset(Keep(ts, p))[t] == multiset(Keep(us, p))[t] {
      KeepCounts(ts, p, t);
      KeepCounts(us, p, t);
    }
    assert multiset(Keep(ts, p)) == multiset(Keep(us, p));
    assert |Keep(ts, p)| == |multiset(Keep(ts, p))| && |Keep(us, p)| == |multiset(Keep(us, p))|;
    if |Keep(ts, p)| == 1 {
      assert Keep(us, p)[0] in multiset(Keep(us, p));
      assert Keep(ts, p) == [Keep(ts, p)[0]] && Keep(us, p) == [Keep(us, p)[0]];
    }
  }

  /** The transitions matching the query whose guard holds. */
  ghost function EnabledIn<World>(ts: seq<Transition>, q: Query<World>): seq<Transition> {
    Keep(ts, t => q.Enabled(t))
  }

  /** The transitions matching the query whose guard fails to evaluate. */
  ghost function FailingIn<World>(ts: seq<Transition>, q: Query<World>): seq<Transition> {
    Keep(ts, t => q.Fails(t))
  }

  lemma InCons<World>(t: Transition, rest: seq<Transition>, q: Query<World>)
    ensures EnabledIn([t] + rest, q) == (if q.Enabled(t) then [t] else []) + EnabledIn(rest, q)
    ensures FailingIn([t] + rest, q) == (if q.Fails(t) then [t] else []) + FailingIn(rest, q)
  {
    assert ([t] + rest)[1..] == rest;
  }

  /** The outcome of selection by counting, from any point of the loop. */
  lemma {:induction false} SelectByCount<World>(ts: seq<Transition>, q: Query<World>, k: nat,
                                                enabled: Option<Transition>)
    requires k <= |ts|
    ensures var s := Select(ts, q, k, enabled);
            var on := (if enabled.Some? then [enabled.value] else []) + EnabledIn(ts[k..], q);
            var bad := FailingIn(ts[k..], q);
            && (bad == [] ==> s == if on == [] then NothingEnabled else if |on| == 1 then Chosen(on[0]) else TwoEnabled)
            && (bad != [] ==> s.GuardFailed? || (s.TwoEnabled? && |on| >= 2))
    decreases |ts| - k
  {
    if k < |ts| {
      var t, rest := ts[k], ts[k + 1..];
      assert ts[k..] == [t] + rest;
      InCons(t, rest, q);
      hide EnabledIn, FailingIn;
      if !q.Matches(t) || q.Verdict(t) == Ok(false) {
        SelectByCount(ts, q, k + 1, enabled);
        assert [] + EnabledIn(rest, q) == EnabledIn(rest, q) && [] + FailingIn(rest, q) == FailingIn(rest, q);
      } else if q.Verdict(t) == Ok(true) {
        assert [] + FailingIn(rest, q) == FailingIn(rest, q);
        if enabled.None? {
          SelectByCount(ts, q, k + 1, Some(t));
          assert [] + ([t] + EnabledIn(rest, q)) == [t] + EnabledIn(rest, q);
        }
      }
    }
  }

  /** A transition is chosen exactly when no matching guard fails and one matching transition
      is enabled; with failing guards the loop may stop at either kind of error. */
  lemma SelectMeaning<World>(ts: seq<Transition>, q: Query<World>)
    ensures var s := Select(ts, q, 0, None);
            && (s.Chosen? <==> FailingIn(ts, q) == [] && |EnabledIn(ts, q)| == 1)
            && (s.Chosen? ==> s.transition == EnabledIn(ts, q)[0])
            && (s.NothingEnabled? <==> FailingIn(ts, q) == [] && EnabledIn(ts, q) == [])
            && (s.TwoEnabled? ==> |EnabledIn(ts, q)| >= 2)
            && (s.GuardFailed? ==> FailingIn(ts, q) != [])
  {
    SelectByCount(ts, q, 0, None);
    assert ts[0..] == ts;
    assert [] + EnabledIn(ts, q) == EnabledIn(ts, q);
  }

  /** The guard that is reported is one of a matching transition, and the message is its own. */
  lemma {:induction false} FailureReported<World>(ts: seq<Transition>, q: Query<World>, k: nat,
                                                  enabled: Option<Transition>)
    requires k <= |ts| && Select(ts, q, k, enabled).GuardFailed?
    ensures var s := Select(ts, q, k, enabled);
            exists i :: k <= i < |ts| && q.Matches(ts[i]) && ts[i].guard == Some(s.name)
                        && q.bindings.guard(q.world, s.name) == Err(s.message)
    decreases |ts| - k
  {
    if q.Matches(ts[k]) && q.Verdict(ts[k]).Err? {
      assert ts[k].guard == Some(Select(ts, q, k, enabled).name);
    } else {
      FailureReported(ts, q, k + 1, if q.Enabled(ts[k]) then Some(ts[k]) else enabled);
    }
  }

  predicate SameKind(a: Selection, b: Selection) {
    && (a.Chosen? <==> b.Chosen?) && (a.NothingEnabled? <==> b.NothingEnabled?)
    && (a.TwoEnabled? <==> b.TwoEnabled?) && (a.GuardFailed? <==> b.GuardFailed?)
  }

  /** The one situation where the order of the table shows. */
  ghost predicate OrderShows<World>(ts: seq<Transition>, q: Query<World>) {
    FailingIn(ts, q) != [] && |EnabledIn(ts, q)| >= 2
  }

  /** Reordering the table never changes what is chosen, and changes the kind of the error only
      if a guard fails while two other transitions are enabled. */
  lemma SelectPermuted<World>(ts: seq<Transition>, us: seq<Transition>, q: Query<World>)
    requires multiset(ts) == multiset(us)
    ensures var (s, r) := (Select(ts, q, 0, None), Select(us, q, 0, None));
            && (s.Chosen? || r.Chosen? ==> s == r)
            && (!OrderShows(ts, q) ==> SameKind(s, r))
  {
    SelectMeaning(ts, q);
    SelectMeaning(us, q);
    KeepPermuted(ts, us, t => q.Enabled(t));
    KeepPermuted(ts, us, t => q.Fails(t));
    assert |EnabledIn(ts, q)| == |EnabledIn(us, q)| && |FailingIn(ts, q)| == |FailingIn(us, q)|;
  }

  lemma {:induction false} SplitByPredicate(ts: seq<Transition>, p: Transition -> bool)
    ensures multiset(Keep(ts, p) + Keep(ts, t => !p(t))) == multiset(ts)
  {
    var n := t => !p(t);
    forall t ensures multiset(Keep(ts, p) + Keep(ts, n))[t] == multiset(ts)[t] {
      KeepCounts(ts, p, t);
      KeepCounts(ts, n, t);
    }
  }

  lemma SelectStops<World>(ts: seq<Transition>, q: Query<World>)
    ensures ts != [] && q.Fails(ts[0]) ==> Select(ts, q, 0, None).GuardFailed?
    ensures |ts| >= 2 && q.Enabled(ts[0]) && q.Enabled(ts[1]) ==> Select(ts, q, 0, None).TwoEnabled?
  {
    if |ts| >= 2 && q.Enabled(ts[0]) && q.Enabled(ts[1]) {
      assert Select(ts, q, 0, None) == Select(ts, q, 1, Some(ts[0]));
    }
  }

  /** In that situation the order does show: one ordering of the table reports the failing guard
      and another reports the ambiguity. */
  lemma OrderCanShow<World>(ts: seq<Transition>, q: Query<World>) returns (us: seq<Transition>, vs: seq<Transition>)
    requires OrderShows(ts, q)
    ensures multiset(us) == multiset(ts) == multiset(vs)
    ensures Select(us, q, 0, None).GuardFailed? && Select(vs, q, 0, None).TwoEnabled?
  {
    var fails, on := t => q.Fails(t), t => q.Enabled(t);
    us := Keep(ts, fails) + Keep(ts, t => !fails(t));
    vs := Keep(ts, on) + Keep(ts, t => !on(t));
    SplitByPredicate(ts, fails);
    SplitByPredicate(ts, on);
    assert Keep(ts, fails)[0] in Keep(ts, fails);
    assert Keep(ts, on)[0] in Keep(ts, on) && Keep(ts, on)[1] in Keep(ts, on);
    assert us[0] == Keep(ts, fails)[0] && vs[0] == Keep(ts, on)[0] && vs[1] == Keep(ts, on)[1];
    SelectStops(us, q);
    SelectStops(vs, q);
  }

  /** The kind of a selection is the same for every ordering of the table if and only if no
      guard fails beside two enabled transitions. */
  lemma OrderMatters<World>(ts: seq<Transition>, q: Query<World>)
    ensures OrderShows(ts, q) <==>
            exists us :: multiset(us) == multiset(ts) && !SameKind(Select(us, q, 0, None), Select(ts, q, 0, None))
  {
    if OrderShows(ts, q) {
      var us, vs := OrderCanShow(ts, q);
      assert !SameKind(Select(us, q, 0, None), Select(ts, q, 0, None))
             || !SameKind(Select(vs, q, 0, None), Select(ts, q, 0, None));
    }
    if us :| multiset(us) == multiset(ts) && !SameKind(Select(us, q, 0, None), Select(ts, q, 0, None)) {
      SelectPermuted(ts, us, q);
    }
  }

  /** Two enabled transitions stand before the first one whose guard fails. */
  ghost predicate TwoBeforeFailure<World>(ts: seq<Transition>, q: Query<World>) {
    exists i, j :: 0 <= i < j < |ts| && q.Enabled(ts[i]) && q.Enabled(ts[j]) && NoFailureUpTo(ts, q, 0, j)
  }

  ghost predicate NoFailureUpTo<World>(ts: seq<Transition>, q: Query<World>, k: nat, j: nat)
    requires j <= |ts|
  {
    forall i :: k <= i < j ==> !q.Fails(ts[i])
  }

  /** From any point of the loop, with or without an enabled transition found before. */
  ghost predicate SecondAhead<World>(ts: seq<Transition>, q: Query<World>, k: nat, found: bool) {
    exists j :: k <= j < |ts| && q.Enabled(ts[j]) && NoFailureUpTo(ts, q, k, j) && (found || EnabledBefore(ts, q, k, j))
  }

  ghost predicate EnabledBefore<World>(ts: seq<Transition>, q: Query<World>, k: nat, j: nat)
    requires j <= |ts|
  {
    exists i :: k <= i < j && q.Enabled(ts[i])
  }

  lemma {:induction false} SelectSecond<World>(ts: seq<Transition>, q: Query<World>, k: nat,
                                               enabled: Option<Transition>)
    requires k <= |ts|
    ensures Select(ts, q, k, enabled).TwoEnabled? <==> SecondAhead(ts, q, k, enabled.Some?)
    decreases |ts| - k
  {
    if k < |ts| {
      var t := ts[k];
      if q.Enabled(t) {
        if enabled.Some? {
          assert NoFailureUpTo(ts, q, k, k);
        } else {
          SelectSecond(ts, q, k + 1, Some(t));
          AheadAfterEnabled(ts, q, k);
        }
      } else if !q.Fails(t) {
        SelectSecond(ts, q, k + 1, enabled);
        AheadSkips(ts, q, k, enabled.Some?);
      }
    }
  }

  lemma AheadSkips<World>(ts: seq<Transition>, q: Query<World>, k: nat, found: bool)
    requires k < |ts| && !q.Enabled(ts[k]) && !q.Fails(ts[k])
    ensures SecondAhead(ts, q, k, found) <==> SecondAhead(ts, q, k + 1, found)
  {
    if j :| k <= j < |ts| && q.Enabled(ts[j]) && NoFailureUpTo(ts, q, k, j) && (found || EnabledBefore(ts, q, k, j)) {
      assert NoFailureUpTo(ts, q, k + 1, j) && (found || EnabledBefore(ts, q, k + 1, j));
    }
    if j :| k + 1 <= j < |ts| && q.Enabled(ts[j]) && NoFailureUpTo(ts, q, k + 1, j)
            && (found || EnabledBefore(ts, q, k + 1, j)) {
      assert NoFailureUpTo(ts, q, k, j) && (found || EnabledBefore(ts, q, k, j));
    }
  }

  lemma AheadAfterEnabled<World>(ts: seq<Transition>, q: Query<World>, k: nat)
    requires k < |ts| && q.Enabled(ts[k])
    ensures SecondAhead(ts, q, k, false) <==> SecondAhead(ts, q, k + 1, true)
  {
    if j :| k <= j < |ts| && q.Enabled(ts[j]) && NoFailureUpTo(ts, q, k, j) && EnabledBefore(ts, q, k, j) {
      assert NoFailureUpTo(ts, q, k + 1, j);
    }
    if j :| k + 1 <= j < |ts| && q.Enabled(ts[j]) && NoFailureUpTo(ts, q, k + 1, j) {
      assert NoFailureUpTo(ts, q, k, j) && EnabledBefore(ts, q, k, j);
    }
  }

  /** Which of the two errors the order of a table gives. */
  lemma AmbiguousExactly<World>(ts: seq<Transition>, q: Query<World>)
    ensures Select(ts, q, 0, None).TwoEnabled? <==> TwoBeforeFailure(ts, q)
  {
    SelectSecond(ts, q, 0, None);
    if j :| 0 <= j < |ts| && q.Enabled(ts[j]) && NoFailureUpTo(ts, q, 0, j) && EnabledBefore(ts, q, 0, j) {
      var i :| 0 <= i < j && q.Enabled(ts[i]);
    }
    if i, j :| 0 <= i < j < |ts| && q.Enabled(ts[i]) && q.Enabled(ts[j]) && NoFailureUpTo(ts, q, 0, j) {
      assert EnabledBefore(ts, q, 0, j);
    }
  }

  /** Two orders of one table give the same kind unless only one of them reports an ambiguity. */
  lemma KindsByAmbiguity<World>(ts: seq<Transition>, us: seq<Transition>, q: Query<World>)
    requires multiset(ts) == multiset(us)
    ensures SameKind(Select(ts, q, 0, None), Select(us, q, 0, None))
            <==> (TwoBeforeFailure(ts, q) <==> TwoBeforeFailure(us, q))
  {
    SelectMeaning(ts, q);
    SelectMeaning(us, q);
    KeepPermuted(ts, us, t => q.Enabled(t));
    KeepPermuted(ts, us, t => q.Fails(t));
    assert |EnabledIn(ts, q)| == |EnabledIn(us, q)| && |FailingIn(ts, q)| == |FailingIn(us, q)|;
    AmbiguousExactly(ts, q);
    AmbiguousExactly(us, q);
    hide TwoBeforeFailure, Select;
  }

  // ---------------------------------------------------------------- whole runs

  /** Feed `events` to a runtime one after the other, also past failing steps. */
  function Run<World>(m: StateMachine, b: Bindings<World>, c: Config<World>, events: seq<string>)
    : (Config<World>, seq<Result<TransitionTrace, RuntimeError>>)
    decreases |events|
  {
    if events == [] then (c, [])
    else
      var (c1, r) := StepConfig(m, b, c, events[0]);
      var (c2, rs) := Run(m, b, c1, events[1..]);
      (c2, [r] + rs)
  }

  function Start<World>(m: StateMachine, world: World): Config<World> {
    Config(m.initial, [], world)
  }

  predicate SameErrorKind(a: RuntimeError, b: RuntimeError) {
    && (a.Terminal? <==> b.Terminal?) && (a.NoTransition? <==> b.NoTransition?) && (a.Ambiguous? <==> b.Ambiguous?)
    && (a.GuardError? <==> b.GuardError?) && (a.EffectError? <==> b.EffectError?)
  }

  /** The same machine with its table in another order, as `normalize` leaves it. */
  ghost predicate Reordered(m: StateMachine, n: StateMachine) {
    && m.initial == n.initial
    && multiset(m.states) == multiset(n.states)
    && multiset(m.transitions) == multiset(n.transitions)
  }

  ghost predicate GuardsTotal<World(!new)>(b: Bindings<World>) {
    forall w, name :: b.guard(w, name).Ok?
  }

  /** Two results agree on success, and on the kind of error where `kinds` asks for it. */
  predicate Agree(a: Result<TransitionTrace, RuntimeError>, b: Result<TransitionTrace, RuntimeError>, kinds: bool) {
    && (a.Ok? || b.Ok? ==> a == b)
    && (kinds && a.Err? && b.Err? ==> SameErrorKind(a.error, b.error))
  }

  lemma TerminalReordered(m: StateMachine, n: StateMachine, state: string)
    requires multiset(m.states) == multiset(n.states)
    ensures IsTerminal(m, state) == IsTerminal(n, state)
  {
    forall s ensures s in m.states <==> s in n.states {
      assert s in m.states <==> s in multiset(m.states);
      assert s in n.states <==> s in multiset(n.states);
    }
  }

  lemma NoneFail<World(!new)>(ts: seq<Transition>, q: Query<World>)
    requires GuardsTotal(q.bindings)
    ensures FailingIn(ts, q) == []
  {
    KeepNone(ts, t => q.Fails(t));
  }

  lemma StepReordered<World(!new)>(m: StateMachine, n: StateMachine, b: Bindings<World>, c: Config<World>,
                                   event: string)
    requires Reordered(m, n)
    ensures var ((c1, r), (d1, s)) := (StepConfig(m, b, c, event), StepConfig(n, b, c, event));
            c1 == d1 && Agree(r, s, GuardsTotal(b))
  {
    TerminalReordered(m, n, c.state);
    var q := Query(c.state, event, b, c.world);
    SelectPermuted(m.transitions, n.transitions, q);
    SelectMeaning(m.transitions, q);
    SelectMeaning(n.transitions, q);
    if GuardsTotal(b) {
      NoneFail(m.transitions, q);
      NoneFail(n.transitions, q);
    }
    var s := Select(m.transitions, q, 0, None);
    if s.Chosen? { TerminalReordered(m, n, s.transition.to); }
  }

  /** Reordering the table preserves whole runs: state, trace, application state and every
      success, for any guards; and the kind of every error when no guard can fail. */
  lemma {:induction false} RunReordered<World(!new)>(m: StateMachine, n: StateMachine, b: Bindings<World>,
                                                     c: Config<World>, events: seq<string>)
    requires Reordered(m, n)
    ensures var ((c1, rs), (d1, ss)) := (Run(m, b, c, events), Run(n, b, c, events));
            && c1 == d1 && |rs| == |ss| == |events|
            && forall i :: 0 <= i < |rs| ==> Agree(rs[i], ss[i], GuardsTotal(b))
    decreases |events|
  {
    if events != [] {
      StepReordered(m, n, b, c, events[0]);
      RunReordered(m, n, b, StepConfig(m, b, c, events[0]).0, events[1..]);
    }
  }

  // ---------------------------------------------------------------- guards, effects and errors of a step

  predicate Answers(t: Transition, state: string, event: string) {
    t.from == state && t.event == event
  }

  /** No guard, or one that evaluates to true. */
  predicate GuardHolds<World>(b: Bindings<World>, w: World, t: Transition) {
    t.guard.Some? ==> b.guard(w, t.guard.value) == Ok(true)
  }

  predicate GuardEvaluates<World>(b: Bindings<World>, w: World, t: Transition) {
    t.guard.Some? ==> b.guard(w, t.guard.value).Ok?
  }

  /** The one transition for the event whose guard holds, when all their guards evaluate. */
  ghost predicate Picks<World>(m: StateMachine, b: Bindings<World>, c: Config<World>, event: string, t: Transition) {
    && !IsTerminal(m, c.state)
    && (forall u :: u in m.transitions && Answers(u, c.state, event) ==> GuardEvaluates(b, c.world, u))
    && multiset(m.transitions)[t] == 1 && Answers(t, c.state, event) && GuardHolds(b, c.world, t)
    && (forall u :: u in m.transitions && Answers(u, c.state, event) && GuardHolds(b, c.world, u) ==> u == t)
  }

  /** What the selection loop asks of a transition. */
  lemma QueryAsks<World>(b: Bindings<World>, w: World, state: string, event: string, t: Transition)
    ensures var q := Query(state, event, b, w);
            && (q.Matches(t) <==> Answers(t, state, event))
            && (q.Enabled(t) <==> Answers(t, state, event) && GuardHolds(b, w, t))
            && (q.Verdict(t).Ok? <==> GuardEvaluates(b, w, t))
            && (q.Verdict(t) == Ok(true) <==> GuardHolds(b, w, t))
  {
  }

  function EffectOn<World>(b: Bindings<World>, w: World, t: Transition): (World, Result<(), string>) {
    if t.effect.None? then (w, Ok(())) else b.effect(w, t.effect.value)
  }

  lemma {:induction false} KeptOnce(ts: seq<Transition>, p: Transition -> bool, t: Transition)
    requires Keep(ts, p) == [t]
    ensures multiset(ts)[t] == 1 && p(t) && forall u :: u in ts && p(u) ==> u == t
  {
    KeepCounts(ts, p, t);
    assert t in Keep(ts, p);
    assert forall u :: u in ts && p(u) ==> u in [t];
  }

  lemma {:induction false} OnceKept(ts: seq<Transition>, p: Transition -> bool, t: Transition)
    requires multiset(ts)[t] == 1 && p(t) && forall u :: u in ts && p(u) ==> u == t
    ensures Keep(ts, p) == [t]
  {
    var r := Keep(ts, p);
    KeepCounts(ts, p, t);
    forall u ensures multiset(r)[u] == multiset([t])[u] {
      KeepCounts(ts, p, u);
      if u != t && p(u) { assert u !in ts; }
    }
    assert multiset(r) == multiset([t]);
    assert |multiset(r)| == |r| && r[0] in multiset(r);
  }

  lemma NoneFailing<World>(ts: seq<Transition>, q: Query<World>)
    ensures FailingIn(ts, q) == [] <==> forall u :: u in ts && q.Matches(u) ==> q.Verdict(u).Ok?
  {
    var fails := t => q.Fails(t);
    if FailingIn(ts, q) != [] { assert FailingIn(ts, q)[0] in FailingIn(ts, q); }
    if u :| u in ts && q.Matches(u) && q.Verdict(u).Err? { assert u in FailingIn(ts, q); }
  }

  /** Selection chooses `t` exactly when it is the one enabled transition and no guard fails. */
  lemma PicksExactly<World>(m: StateMachine, b: Bindings<World>, c: Config<World>, event: string, t: Transition)
    requires !IsTerminal(m, c.state)
    ensures Select(m.transitions, Query(c.state, event, b, c.world), 0, None) == Chosen(t) <==> Picks(m, b, c, event, t)
  {
    var q := Query(c.state, event, b, c.world);
    SelectMeaning(m.transitions, q);
    NoneFailing(m.transitions, q);
    forall u
      ensures q.Matches(u) <==> Answers(u, c.state, event)
      ensures q.Enabled(u) <==> Answers(u, c.state, event) && GuardHolds(b, c.world, u)
      ensures q.Verdict(u).Ok? <==> GuardEvaluates(b, c.world, u)
    {
      QueryAsks(b, c.world, c.state, event, u);
    }
    hide Answers, GuardHolds, GuardEvaluates, Select;
    var s := Select(m.transitions, q, 0, None);
    if s == Chosen(t) {
      assert EnabledIn(m.transitions, q) == [t];
      KeptOnce(m.transitions, u => q.Enabled(u), t);
    }
    if Picks(m, b, c, event, t) { OnceKept(m.transitions, u => q.Enabled(u), t); }
  }

  /** A step succeeds exactly when it picks a transition whose effect goes through. It then moves to the
      target, with the entry of that transition and the application state the effect left. */
  lemma StepSucceedsExactly<World>(m: StateMachine, b: Bindings<World>, c: Config<World>, event: string)
    ensures var (c1, r) := StepConfig(m, b, c, event);
            && (r.Ok? <==> exists t :: Picks(m, b, c, event, t) && EffectOn(b, c.world, t).1.Ok?)
            && (forall t :: Picks(m, b, c, event, t) && EffectOn(b, c.world, t).1.Ok? ==>
                  && r == Ok(TransitionTrace(t.id, c.state, t.to, event, t.guard, t.effect, IsTerminal(m, t.to)))
                  && c1.state == t.to && c1.trace == c.trace + [r.value] && c1.world == EffectOn(b, c.world, t).0)
  {
    var s := Select(m.transitions, Query(c.state, event, b, c.world), 0, None);
    if !IsTerminal(m, c.state) {
      forall t ensures s == Chosen(t) <==> Picks(m, b, c, event, t) { PicksExactly(m, b, c, event, t); }
      if s.Chosen? { assert Picks(m, b, c, event, s.transition); }
      hide Select, Picks;
    }
  }

  /** A step that fails stays where it is. The application state changes only by the effect that failed,
      and the error says what went wrong, with the state, event, guard or effect it is about. */
  lemma StepFailsExactly<World>(m: StateMachine, b: Bindings<World>, c: Config<World>, event: string)
    ensures var (c1, r) := StepConfig(m, b, c, event);
            r.Err? ==>
              && c1.state == c.state && c1.trace == c.trace
              && (r.error.EffectError? || c1.world == c.world)
              && (match r.error
                  case Terminal(state) => state == c.state && IsTerminal(m, c.state)
                  case NoTransition(state, e) =>
                    state == c.state && e == event && !IsTerminal(m, c.state)
                    && (forall u :: u in m.transitions && Answers(u, state, event) ==>
                          u.guard.Some? && b.guard(c.world, u.guard.value) == Ok(false))
                  case Ambiguous(state, e) =>
                    state == c.state && e == event && !IsTerminal(m, c.state)
                      && TwoHold(m.transitions, b, c.world, state, e)
                  case GuardError(name, message) =>
                    && !IsTerminal(m, c.state) && b.guard(c.world, name) == Err(message)
                    && exists u :: u in m.transitions && Answers(u, c.state, event) && u.guard == Some(name)
                  case EffectError(name, message) =>
                    exists t :: Picks(m, b, c, event, t) && t.effect == Some(name)
                      && b.effect(c.world, name) == (c1.world, Err(message))
                  case InvalidModel => false)
  {
    var q := Query(c.state, event, b, c.world);
    var s := Select(m.transitions, q, 0, None);
    if !IsTerminal(m, c.state) {
      SelectMeaning(m.transitions, q);
      NoneFailing(m.transitions, q);
      if s.Chosen? { PicksExactly(m, b, c, event, s.transition); }
      if s.GuardFailed? { FailureReported(m.transitions, q, 0, None); }
      if s.NothingEnabled? { NothingEnabledMeans(m.transitions, q); }
      if s.TwoEnabled? { TwoEnabledMeans(m.transitions, q); }
      hide Select, Picks, EnabledIn, FailingIn;
    }
  }

  /** Two places of the table hold transitions for the event whose guards hold. */
  ghost predicate TwoHold<World>(ts: seq<Transition>, b: Bindings<World>, w: World, state: string, event: string) {
    exists i, j :: 0 <= i < j < |ts| && HoldsAt(ts, b, w, state, event, i) && HoldsAt(ts, b, w, state, event, j)
  }

  predicate HoldsAt<World>(ts: seq<Transition>, b: Bindings<World>, w: World, state: string, event: string, i: nat)
    requires i < |ts|
  {
    Answers(ts[i], state, event) && GuardHolds(b, w, ts[i])
  }

  lemma TwoEnabledMeans<World>(ts: seq<Transition>, q: Query<World>)
    requires Select(ts, q, 0, None).TwoEnabled?
    ensures TwoHold(ts, q.bindings, q.world, q.state, q.event)
  {
    AmbiguousExactly(ts, q);
    var i, j :| 0 <= i < j < |ts| && q.Enabled(ts[i]) && q.Enabled(ts[j]) && NoFailureUpTo(ts, q, 0, j);
    assert HoldsAt(ts, q.bindings, q.world, q.state, q.event, i)
      && HoldsAt(ts, q.bindings, q.world, q.state, q.event, j);
  }

  lemma NothingEnabledMeans<World>(ts: seq<Transition>, q: Query<World>)
    requires EnabledIn(ts, q) == [] && forall u :: u in ts && q.Matches(u) ==> q.Verdict(u).Ok?
    ensures forall u :: u in ts && Answers(u, q.state, q.event) ==>
              u.guard.Some? && q.bindings.guard(q.world, u.guard.value) == Ok(false)
  {
    forall u | u in ts && Answers(u, q.state, q.event)
      ensures u.guard.Some? && q.bindings.guard(q.world, u.guard.value) == Ok(false) {
      assert q.Verdict(u).Ok?;
      assert q.Verdict(u).value ==> q.Enabled(u) && u in EnabledIn(ts, q);
    }
  }

  // ---------------------------------------------------------------- effects over whole runs

  /** Where a run of attempts stands: the state and the application state, without a trace. */
  datatype Place<World> = Place(state: string, world: World)

  /** A transition attempted: its effect runs, and the state moves if it goes through. */
  function Attempt<World>(b: Bindings<World>, p: Place<World>, t: Transition): Place<World> {
    var (w, outcome) := EffectOn(b, p.world, t);
    Place(if outcome.Ok? then t.to else p.state, w)
  }

  function AttemptAll<World>(b: Bindings<World>, p: Place<World>, ts: seq<Transition>): Place<World>
    decreases |ts|
  {
    if ts == [] then p else AttemptAll(b, Attempt(b, p, ts[0]), ts[1..])
  }

  /** The effects of some transitions, applied in order, whatever their outcomes. */
  function EffectsOf<World>(b: Bindings<World>, w: World, ts: seq<Transition>): World
    decreases |ts|
  {
    if ts == [] then w else EffectsOf(b, EffectOn(b, w, ts[0]).0, ts[1..])
  }

  lemma {:induction false} AttemptsRunEffects<World>(b: Bindings<World>, p: Place<World>, ts: seq<Transition>)
    ensures AttemptAll(b, p, ts).world == EffectsOf(b, p.world, ts)
    decreases |ts|
  {
    hide EffectOn;
    if ts != [] { AttemptsRunEffects(b, Attempt(b, p, ts[0]), ts[1..]); }
  }

  /** The transitions picked, one event after the other, each from where the one before left off. */
  ghost predicate Attempts<World>(m: StateMachine, b: Bindings<World>, p: Place<World>, events: seq<string>,
                                  ts: seq<Transition>)
    decreases |events|
  {
    if events == [] then ts == []
    else
      var c := Config(p.state, [], p.world);
      if exists t :: Picks(m, b, c, events[0], t) then
        ts != [] && Picks(m, b, c, events[0], ts[0]) && Attempts(m, b, Attempt(b, p, ts[0]), events[1..], ts[1..])
      else Attempts(m, b, p, events[1..], ts)
  }

  /** The application state after a run is that of the effects of the transitions attempted, in order,
      and nothing else changes it; the state is where those that went through led. */
  lemma {:induction false} RunAppliesEffects<World>(m: StateMachine, b: Bindings<World>, c: Config<World>,
                                                    events: seq<string>)
    returns (ts: seq<Transition>)
    ensures Attempts(m, b, Place(c.state, c.world), events, ts)
    ensures var c1 := Run(m, b, c, events).0;
            && Place(c1.state, c1.world) == AttemptAll(b, Place(c.state, c.world), ts)
            && c1.world == EffectsOf(b, c.world, ts)
    decreases |events|
  {
    if events == [] {
      ts := [];
    } else {
      var p, c0 := Place(c.state, c.world), Config(c.state, [], c.world);
      var c1 := StepConfig(m, b, c, events[0]).0;
      var rest := RunAppliesEffects(m, b, c1, events[1..]);
      StepPlace(m, b, c, events[0]);
      hide StepConfig, Picks, EffectOn;
      if exists t :: Picks(m, b, c0, events[0], t) {
        var t :| Picks(m, b, c0, events[0], t);
        ts := [t] + rest;
        assert ts[1..] == rest;
      } else {
        ts := rest;
      }
    }
    AttemptsRunEffects(b, Place(c.state, c.world), ts);
  }

  /** One step moves the place by the transition picked, if there is one. */
  lemma StepPlace<World>(m: StateMachine, b: Bindings<World>, c: Config<World>, event: string)
    ensures var (c0, c1) := (Config(c.state, [], c.world), StepConfig(m, b, c, event).0);
            && (forall t :: Picks(m, b, c0, event, t) ==>
                  Place(c1.state, c1.world) == Attempt(b, Place(c.state, c.world), t))
            && ((forall t :: !Picks(m, b, c0, event, t)) ==> Place(c1.state, c1.world) == Place(c.state, c.world))
  {
    var c0 := Config(c.state, [], c.world);
    var s := Select(m.transitions, Query(c.state, event, b, c.world), 0, None);
    if !IsTerminal(m, c.state) {
      if s.Chosen? { ChosenPlace(m, b, c, event, s.transition); }
      forall t ensures Picks(m, b, c0, event, t) <==> s == Chosen(t) { PicksExactly(m, b, c0, event, t); }
    }
    hide Select, Attempt;
  }

  lemma ChosenPlace<World>(m: StateMachine, b: Bindings<World>, c: Config<World>, event: string, t: Transition)
    requires !IsTerminal(m, c.state) && Select(m.transitions, Query(c.state, event, b, c.world), 0, None) == Chosen(t)
    ensures var c1 := StepConfig(m, b, c, event).0; Place(c1.state, c1.world) == Attempt(b, Place(c.state, c.world), t)
  {
    hide Select;
    var c1 := StepConfig(m, b, c, event).0;
    var p := Place(c.state, c.world);
    assert c1.world == EffectOn(b, c.world, t).0 == Attempt(b, p, t).world;
    assert c1.state == Attempt(b, p, t).state;
  }

  // ---------------------------------------------------------------- what every run keeps

  /** The trace entry records a declared transition. */
  ghost predicate Records(m: StateMachine, e: TransitionTrace, t: Transition) {
    && t in m.transitions
    && e == TransitionTrace(t.id, t.from, t.to, t.event, t.guard, t.effect, IsTerminal(m, t.to))
  }

  ghost predicate Recorded(m: StateMachine, e: TransitionTrace) {
    exists t :: Records(m, e, t)
  }

  /** The trace is a path of declared transitions from `initial` to the current state, only its
      last entry can be terminal, and the state is one validation calls reachable. */
  ghost predicate Coherent<World>(m: StateMachine, c: Config<World>) {
    var n := |c.trace|;
    && c.state in StateIds(m.states)
    && Reaches(MachineEdges(m), m.initial, c.state)
    && (forall i :: 0 <= i < n ==> Recorded(m, c.trace[i]))
    && (if n == 0 then c.state == m.initial else c.trace[0].from == m.initial && c.trace[n - 1].to == c.state)
    && (forall i :: 0 <= i < n - 1 ==> c.trace[i].to == c.trace[i + 1].from && !c.trace[i].terminal)
  }

  /** A step that succeeds takes a declared transition out of a state that is not terminal. */
  lemma StepTakes<World>(m: StateMachine, b: Bindings<World>, c: Config<World>, event: string) returns (t: Transition)
    requires MachineValid(m) && StepConfig(m, b, c, event).1.Ok?
    ensures var (c1, r) := StepConfig(m, b, c, event);
            && Records(m, r.value, t) && t.from == c.state && t.event == event && !IsTerminal(m, c.state)
            && c1.state == t.to && c1.trace == c.trace + [r.value]
            && t.to in StateIds(m.states) && (t.from, t.to) in MachineEdges(m)
  {
    var q := Query(c.state, event, b, c.world);
    SelectMeaning(m.transitions, q);
    t := Select(m.transitions, q, 0, None).transition;
    assert t in EnabledIn(m.transitions, q);
    var i :| 0 <= i < |m.transitions| && m.transitions[i] == t;
    assert TransitionOk(m, i);
  }

  lemma StepCoherent<World>(m: StateMachine, b: Bindings<World>, c: Config<World>, event: string)
    requires MachineValid(m) && Coherent(m, c)
    ensures var (c1, r) := StepConfig(m, b, c, event);
            && Coherent(m, c1)
            && (r.Err? ==> c1.state == c.state && c1.trace == c.trace)
            && (r.Ok? ==> c1.trace == c.trace + [r.value] && r.value.from == c.state && r.value.to == c1.state
                          && r.value.event == event && !IsTerminal(m, c.state))
  {
    var (c1, r) := StepConfig(m, b, c, event);
    if r.Ok? {
      var t := StepTakes(m, b, c, event);
      var e := MachineEdges(m);
      ReachEdge(e, t.from, t.to);
      ReachTrans(e, m.initial, t.from, t.to);
      hide StepConfig, MachineValid, Reaches, MachineEdges, StateIds, IsTerminal;
      assert Recorded(m, r.value);
      if c.trace != [] {
        var last := c.trace[|c.trace| - 1];
        assert Recorded(m, last);
        assert last.terminal == IsTerminal(m, last.to);
      }
    }
  }

  /** Every run of an accepted machine stays coherent, whatever the guards and effects do. */
  lemma {:induction false} RunCoherent<World>(m: StateMachine, b: Bindings<World>, c: Config<World>,
                                              events: seq<string>)
    requires MachineValid(m) && Coherent(m, c)
    ensures Coherent(m, Run(m, b, c, events).0)
    decreases |events|
  {
    if events != [] {
      StepCoherent(m, b, c, events[0]);
      RunCoherent(m, b, StepConfig(m, b, c, events[0]).0, events[1..]);
    }
  }

  lemma StartCoherent<World>(m: StateMachine, world: World)
    requires MachineValid(m)
    ensures Coherent(m, Start(m, world))
  {
    ReachSelf(MachineEdges(m), m.initial);
  }
}
