/** `StateMachine::validate` (`crates/kr0ki-behavior/src/validation.rs`). */
module MachineValidation {
  import opened BehaviorIr
  import opened Graph
  import opened Ordering
  import opened Wrappers

  ghost function MachineEdges(m: StateMachine): Edges<string> {
    set t | t in m.transitions :: (t.from, t.to)
  }

  /** Declared state ids. A blank id is reported and not declared. */
  function StateIds(states: seq<MachineState>): set<string> {
    set s | s in states && Nonempty(s.id) :: s.id
  }

  /** The terminal flag `validate` looks up: the last declaration of an id wins. */
  predicate LastTerminal(states: seq<MachineState>, id: string) {
    if states == [] then false
    else
      var s := states[|states| - 1];
      if s.id == id && Nonempty(s.id) then s.terminal else LastTerminal(states[..|states| - 1], id)
  }

  ghost predicate StateOk(m: StateMachine, i: nat)
    requires i < |m.states|
  {
    Nonempty(m.states[i].id) && forall j :: 0 <= j < i ==> m.states[j].id != m.states[i].id
  }

  ghost predicate TransitionOk(m: StateMachine, i: nat)
    requires i < |m.transitions|
  {
    var t := m.transitions[i];
    && Nonempty(t.id) && !RepeatsId(m, i)
    && t.from in StateIds(m.states) && t.to in StateIds(m.states)
    && !LastTerminal(m.states, t.from)
    && Nonempty(t.event) && Filled(t.guard) && Filled(t.effect)
    && (t.guard.None? ==> !RepeatsUnguarded(m, i))
  }

  ghost predicate RepeatsId(m: StateMachine, i: nat)
    requires i < |m.transitions|
  {
    exists j :: 0 <= j < i && m.transitions[j].id == m.transitions[i].id
  }

  /** An earlier unguarded transition leaves the same state on the same event. */
  ghost predicate RepeatsUnguarded(m: StateMachine, i: nat)
    requires i < |m.transitions|
  {
    exists j :: 0 <= j < i && SameUnguarded(m.transitions[j], m.transitions[i])
  }

  predicate SameUnguarded(a: Transition, b: Transition) {
    a.guard.None? && a.from == b.from && a.event == b.event
  }

  /** What an accepted machine satisfies, with no reference to the order of the checks. */
  ghost predicate MachineValid(m: StateMachine) {
    && Nonempty(m.id) && Nonempty(m.name)
    && (forall i :: 0 <= i < |m.states| ==> StateOk(m, i))
    && m.initial in StateIds(m.states)
    && (forall i :: 0 <= i < |m.transitions| ==> TransitionOk(m, i))
  }

  // ---------------------------------------------------------------- the findings

  function Unreachable(m: StateMachine, s: MachineState): (d: Diagnostic)
    ensures d.severity == Warning
  {
    Diagnostic("unreachable_state", Warning,
               "state " + s.id + " is unreachable from initial state " + m.initial, s.anchor)
  }

  function MachineIdentifier(): (d: Diagnostic) ensures d.severity == Error {
    Diagnostic("machine_identifier", Error, "machine id and name must be nonempty", None)
  }

  function DuplicateState(s: MachineState): (d: Diagnostic) ensures d.severity == Error {
    Diagnostic("duplicate_state", Error, "state id is empty or duplicated: " + s.id, s.anchor)
  }

  function InitialState(): (d: Diagnostic) ensures d.severity == Error {
    Diagnostic("initial_state", Error, "initial state must exist", None)
  }

  function DuplicateTransition(t: Transition): (d: Diagnostic) ensures d.severity == Error {
    Diagnostic("duplicate_transition", Error, "transition id is empty or duplicated: " + t.id, t.anchor)
  }

  function TransitionTarget(t: Transition): (d: Diagnostic) ensures d.severity == Error {
    Diagnostic("transition_target", Error, "transition " + t.id + " references absent state", t.anchor)
  }

  function TerminalTransition(t: Transition): (d: Diagnostic) ensures d.severity == Error {
    Diagnostic("terminal_transition", Error, "terminal state " + t.from + " has outgoing transition", t.anchor)
  }

  function TransitionContent(t: Transition): (d: Diagnostic) ensures d.severity == Error {
    Diagnostic("transition_content", Error, "event, guard and effect identifiers must be nonempty", t.anchor)
  }

  function AmbiguousTransition(t: Transition): (d: Diagnostic) ensures d.severity == Error {
    Diagnostic("ambiguous_transition", Error, "multiple unguarded transitions for " + t.from + " / " + t.event,
               t.anchor)
  }

  // ---------------------------------------------------------------- the checks

  ghost predicate Worklist(m: StateMachine, reachable: set<string>, pending: seq<string>) {
    && (forall s :: s in reachable || s in pending ==> Reaches(MachineEdges(m), m.initial, s))
    && (m.initial in reachable || m.initial in pending)
    && (forall a, b :: a in reachable && (a, b) in MachineEdges(m) ==> b in reachable || b in pending)
  }

  /** The reachability worklist: exactly the states some transition path leads to. */
  method ReachableStates(m: StateMachine) returns (reachable: set<string>)
    ensures forall s :: s in reachable <==> Reaches(MachineEdges(m), m.initial, s)
  {
    reachable := {};
    var pending := [m.initial];
    ReachSelf(MachineEdges(m), m.initial);
    ghost var everything := {m.initial} + set t | t in m.transitions :: t.to;
    while pending != []
      invariant Worklist(m, reachable, pending)
      invariant reachable <= everything && forall s :: s in pending ==> s in everything
      decreases everything - reachable, |pending|
    {
      var state := pending[|pending| - 1];
      assert pending == pending[..|pending| - 1] + [state];
      pending := pending[..|pending| - 1];
      if state !in reachable {
        reachable := reachable + {state};
        for k := 0 to |m.transitions|
          invariant forall s :: s in pending ==> s in everything
          invariant forall s :: s in reachable || s in pending ==> Reaches(MachineEdges(m), m.initial, s)
          invariant m.initial in reachable || m.initial in pending
          invariant forall a, b :: a in reachable && a != state && (a, b) in MachineEdges(m) ==>
                    b in reachable || b in pending
          invariant forall j :: 0 <= j < k && m.transitions[j].from == state ==> m.transitions[j].to in pending
        {
          var t := m.transitions[k];
          if t.from == state {
            ReachEdge(MachineEdges(m), state, t.to);
            ReachTrans(MachineEdges(m), m.initial, state, t.to);
            pending := pending + [t.to];
          }
        }
      }
    }
    forall s | Reaches(MachineEdges(m), m.initial, s) ensures s in reachable {
      ClosedSet(MachineEdges(m), reachable, m.initial, s);
    }
  }

  ghost predicate ErrorsOnly(findings: seq<Diagnostic>) {
    forall d :: d in findings ==> d.severity == Error
  }

  /** Push an error when `bad` holds. */
  method ReportError(findings0: seq<Diagnostic>, bad: bool, d: Diagnostic) returns (findings: seq<Diagnostic>)
    requires ErrorsOnly(findings0) && d.severity == Error
    ensures ErrorsOnly(findings)
    ensures HasError(findings) <==> HasError(findings0) || bad
  {
    findings := Report(findings0, bad, d);
  }

  /** The state loop of `validate`, filling the `states` map. */
  method CheckStates(m: StateMachine, findings0: seq<Diagnostic>)
    returns (findings: seq<Diagnostic>, states: map<string, MachineState>)
    requires ErrorsOnly(findings0)
    ensures states.Keys == StateIds(m.states)
    ensures forall id :: id in states ==> states[id].terminal == LastTerminal(m.states, id)
    ensures HasError(findings) <==> HasError(findings0) || exists k :: 0 <= k < |m.states| && !StateOk(m, k)
    ensures ErrorsOnly(findings)
  {
    hide *;
    findings, states := findings0, map[];
    NoStates(m);
    for i := 0 to |m.states|
      invariant states.Keys == StateIds(m.states[..i])
      invariant forall id :: id in states ==> states[id].terminal == LastTerminal(m.states[..i], id)
      invariant HasError(findings) <==> HasError(findings0) || exists k :: 0 <= k < i && !StateOk(m, k)
      invariant ErrorsOnly(findings)
    {
      var state := m.states[i];
      ExtendStates(m, i);
      var repeated := Nonempty(state.id) && state.id in states;
      findings := ReportError(findings, !Nonempty(state.id) || repeated, DuplicateState(state));
      if Nonempty(state.id) { states := states[state.id := state]; }
    }
    assert m.states[..|m.states|] == m.states;
  }

  lemma NoStates(m: StateMachine)
    ensures StateIds(m.states[..0]) == {}
    ensures ErrorsOnly([])
  {
  }

  lemma ExtendStates(m: StateMachine, i: nat)
    requires i < |m.states|
    ensures var (before, after, s) := (m.states[..i], m.states[..i + 1], m.states[i]);
            && StateIds(after) == StateIds(before) + (if Nonempty(s.id) then {s.id} else {})
            && (forall id :: LastTerminal(after, id)
                  == if s.id == id && Nonempty(s.id) then s.terminal else LastTerminal(before, id))
            && (StateOk(m, i) <==> Nonempty(s.id) && s.id !in StateIds(before))
  {
    var before, after, s := m.states[..i], m.states[..i + 1], m.states[i];
    assert after == before + [s];
    assert after[..i] == before;
    forall j | 0 <= j < i ensures m.states[j] in before { assert before[j] == m.states[j]; }
  }

  /** The `transitions` and `unguarded` sets after the first `i` transitions. */
  ghost predicate SeenBefore(m: StateMachine, i: nat, ids: set<string>, unguarded: set<(string, string)>)
    requires i <= |m.transitions|
  {
    && ids == (set k | 0 <= k < i && Nonempty(m.transitions[k].id) :: m.transitions[k].id)
    && unguarded == set k | 0 <= k < i && m.transitions[k].guard.None? ::
                      (m.transitions[k].from, m.transitions[k].event)
  }

  lemma TransitionRepeats(m: StateMachine, i: nat, ids: set<string>, unguarded: set<(string, string)>)
    requires i < |m.transitions|
    requires SeenBefore(m, i, ids, unguarded)
    ensures var t := m.transitions[i];
            && (Nonempty(t.id) ==> (t.id in ids <==> RepeatsId(m, i)))
            && ((t.from, t.event) in unguarded <==> RepeatsUnguarded(m, i))
  {
    hide Nonempty;
    var t := m.transitions[i];
    if j :| 0 <= j < i && SameUnguarded(m.transitions[j], t) {
      assert (m.transitions[j].from, m.transitions[j].event) in unguarded;
    }
  }

  /** The checks `validate` makes of one transition. */
  method CheckTransition(m: StateMachine, i: nat, states: map<string, MachineState>, ids: set<string>,
                         unguarded: set<(string, string)>, findings0: seq<Diagnostic>)
    returns (findings: seq<Diagnostic>)
    requires i < |m.transitions| && ErrorsOnly(findings0)
    requires states.Keys == StateIds(m.states)
    requires forall id :: id in states ==> states[id].terminal == LastTerminal(m.states, id)
    requires SeenBefore(m, i, ids, unguarded)
    ensures HasError(findings) <==> HasError(findings0) || !TransitionOk(m, i)
    ensures ErrorsOnly(findings)
  {
    var t := m.transitions[i];
    var repeated := !Nonempty(t.id) || t.id in ids;
    var dangling := t.from !in states || t.to !in states;
    var leavesTerminal := t.from in states && states[t.from].terminal;
    var blank := !Nonempty(t.event) || !Filled(t.guard) || !Filled(t.effect);
    var ambiguous := t.guard.None? && (t.from, t.event) in unguarded;
    assert TransitionOk(m, i) <==> !(repeated || dangling || leavesTerminal || blank || ambiguous) by {
      TransitionRepeats(m, i, ids, unguarded);
      hide LastTerminal, StateIds, Nonempty, Filled, SeenBefore, RepeatsId, RepeatsUnguarded;
    }
    hide *;
    findings := ReportError(findings0, repeated, DuplicateTransition(t));
    findings := ReportError(findings, dangling, TransitionTarget(t));
    findings := ReportError(findings, leavesTerminal, TerminalTransition(t));
    findings := ReportError(findings, blank, TransitionContent(t));
    findings := ReportError(findings, ambiguous, AmbiguousTransition(t));
  }

  /** The transition loop of `validate`. */
  method CheckTransitions(m: StateMachine, states: map<string, MachineState>, findings0: seq<Diagnostic>)
    returns (findings: seq<Diagnostic>)
    requires ErrorsOnly(findings0)
    requires states.Keys == StateIds(m.states)
    requires forall id :: id in states ==> states[id].terminal == LastTerminal(m.states, id)
    ensures HasError(findings) <==> HasError(findings0) || exists k :: 0 <= k < |m.transitions| && !TransitionOk(m, k)
    ensures ErrorsOnly(findings)
  {
    hide HasError, TransitionOk, LastTerminal, StateIds, Nonempty;
    findings := findings0;
    var transitions: set<string> := {};
    var unguarded: set<(string, string)> := {};
    for i := 0 to |m.transitions|
      invariant SeenBefore(m, i, transitions, unguarded)
      invariant HasError(findings) <==> HasError(findings0) || exists k :: 0 <= k < i && !TransitionOk(m, k)
      invariant ErrorsOnly(findings)
    {
      findings := CheckTransition(m, i, states, transitions, unguarded, findings);
      var t := m.transitions[i];
      if Nonempty(t.id) { transitions := transitions + {t.id}; }
      if t.guard.None? { unguarded := unguarded + {(t.from, t.event)}; }
    }
  }

  /** The unreachable-state warnings of a machine. */
  ghost function Unreachables(m: StateMachine): set<Diagnostic> {
    set s | s in m.states && !Reaches(MachineEdges(m), m.initial, s.id) :: Unreachable(m, s)
  }

  /** The last loop of `validate`: a warning for each state the worklist missed. */
  method WarnUnreachable(m: StateMachine, errors: seq<Diagnostic>) returns (findings: seq<Diagnostic>)
    requires ErrorsOnly(errors)
    ensures HasError(findings) <==> HasError(errors)
    ensures forall s :: s in m.states ==>
              (Unreachable(m, s) in findings <==> !Reaches(MachineEdges(m), m.initial, s.id))
    ensures Mild(findings) == Unreachables(m)
  {
    var reachable := ReachableStates(m);
    hide Reaches, HasError;
    findings := errors;
    for i := 0 to |m.states|
      invariant HasError(findings) <==> HasError(errors)
      invariant forall d :: d in findings ==>
                  d in errors
                  || exists k :: 0 <= k < i && d == Unreachable(m, m.states[k]) && m.states[k].id !in reachable
      invariant forall k :: 0 <= k < i && m.states[k].id !in reachable ==> Unreachable(m, m.states[k]) in findings
    {
      findings := Report(findings, m.states[i].id !in reachable, Unreachable(m, m.states[i]));
    }
    forall s | s in m.states ensures Unreachable(m, s) in findings <==> s.id !in reachable {
      if Unreachable(m, s) in findings {
        var k :| 0 <= k < |m.states| && Unreachable(m, s) == Unreachable(m, m.states[k])
          && m.states[k].id !in reachable;
        SameUnreachable(m, s, m.states[k]);
      }
    }
  }

  /** Every structural check of a transition table, in the source's order. */
  method Validate(m: StateMachine) returns (findings: seq<Diagnostic>)
    ensures HasError(findings) <==> !MachineValid(m)
    ensures forall s :: s in m.states ==>
              (Unreachable(m, s) in findings <==> !Reaches(MachineEdges(m), m.initial, s.id))
    ensures Mild(findings) == Unreachables(m)
    ensures Sorted(findings, DiagnosticKey)
  {
    NoStates(m);
    hide TransitionOk, StateOk, Reaches, Nonempty, StateIds, DiagnosticKey, Unreachable, MachineIdentifier,
      InitialState;
    findings := ReportError([], !Nonempty(m.id) || !Nonempty(m.name), MachineIdentifier());
    var states;
    findings, states := CheckStates(m, findings);
    findings := ReportError(findings, m.initial !in states, InitialState());
    findings := CheckTransitions(m, states, findings);
    findings := WarnUnreachable(m, findings);
    SortKeepsElements(findings, DiagnosticKey);
    SortSorts(findings, DiagnosticKey);
    findings := Sort(findings, DiagnosticKey);
  }

  lemma SameUnreachable(m: StateMachine, s: MachineState, t: MachineState)
    requires Unreachable(m, s) == Unreachable(m, t)
    ensures s.id == t.id
  {
    var suffix := " is unreachable from initial state " + m.initial;
    var a, b := Unreachable(m, s).message, Unreachable(m, t).message;
    assert a == "state " + s.id + suffix && b == "state " + t.id + suffix;
    assert s.id == a[6..|a| - |suffix|] && t.id == b[6..|b| - |suffix|];
  }

  method EnsureValid(m: StateMachine) returns (ok: bool)
    ensures ok <==> MachineValid(m)
  {
    var findings := Validate(m);
    ok := NoErrors(findings);
  }
}
