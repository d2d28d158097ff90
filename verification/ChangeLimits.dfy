/** Exactly when the commit protocol's guarantees hold, with the runs that break them. */
module ChangeLimits {
  import opened ChangeCalls
  import opened ChangeProtocol
  import opened ChangeSafety
  import opened ModelServer
  import opened Ordering
  import opened Reconcile
  import opened SyncEngine
  import opened Wrappers

  // ---------------------------------------------------------------- pieces of runs

  lemma {:induction false} RunAppend(cfg: Config, s: System, a: seq<Action>, b: seq<Action>)
    ensures Run(cfg, s, a + b) == Run(cfg, Run(cfg, s, a), b)
    decreases |a|
  {
    hide Step;
    if a == [] {
      assert a + b == b;
    } else {
      assert (a + b)[1..] == a[1..] + b;
      RunAppend(cfg, Step(cfg, s, a[0]), a[1..], b);
    }
  }

  lemma RunTwo(cfg: Config, s: System, a: Action, b: Action)
    ensures Run(cfg, s, [a, b]) == Step(cfg, Step(cfg, s, a), b)
  {
    hide Step;
    RunStep(cfg, s, [a, b]);
    RunStep(cfg, Step(cfg, s, a), [b]);
  }

  lemma RunThree(cfg: Config, s: System, a: Action, b: Action, c: Action)
    ensures Run(cfg, s, [a, b, c]) == Step(cfg, Step(cfg, Step(cfg, s, a), b), c)
  {
    hide Step;
    RunStep(cfg, s, [a, b, c]);
    RunTwo(cfg, Step(cfg, s, a), b, c);
  }

  const Part := DesiredElement("a", "PartUsage", map[])

  function PartPlan(t: Target): Plan {
    Plan(t, "", [Part])
  }

  /** On nothing managed, the one desired element is created. */
  lemma FirstProposal()
    ensures Diff([], [Part]) == Ok([DataVersion(Some(CreatePayload(Part)), None)])
  {
    NoDuplicates([], [Part]);
    var create := DataVersion(Some(CreatePayload(Part)), None);
    hide CreatePayload;
    assert [Part][..0] == [];
    assert ChangesFor(map[], [Part]) == ChangesFor(map[], []) + ChangeFor(map[], Part) == [create];
    var none := ByIdentifier([]);
    assert InOrder(none.Keys) == [];
    assert DeletesFor(none, Wanted([Part]), InOrder(none.Keys)) == [];
    assert [create] + [] == [create];
  }

  function PartStored(cfg: Config, t: Target, base: Option<string>): Stored {
    var changes := [DataVersion(Some(CreatePayload(Part)), None)];
    Stored(ProposedChange(cfg.changeId(t, base, changes), t, base), changes, "", [Part])
  }

  function AfterPropose(s: System, c: nat, p: Stored): System {
    Move(s.(proposals := s.proposals[p.proposal.changeId := p], issued := s.issued + {p}), c,
         Done(Proposed(p.proposal)))
  }

  lemma MoveAgain(s: System, c: nat, a: Pc, b: Pc)
    ensures Move(Move(s, c, a), c, b) == Move(s, c, b)
  {
    assert s.callers[c := a][c := b] == s.callers[c := b];
  }

  /** A caller proposes the element on an empty chain. */
  lemma ProposeRun(cfg: Config, s: System, c: nat, t: Target)
    requires c !in s.callers && Chain(s, cfg.chainOf(t)) == []
    ensures Run(cfg, s, ProposeSteps(c, PartPlan(t))) == AfterPropose(s, c, PartStored(cfg, t, None))
  {
    var p := PartPlan(t);
    var a, b := HeadRead(p, None), ElementsRead(p, None, []);
    ProposeReads(cfg, s, c, p);
    ProposeInserts(cfg, s, c, t);
    MoveAgain(s, c, a, b);
    MoveAgain(s.(proposals := AfterPropose(s, c, PartStored(cfg, t, None)).proposals), c, b, Done(Unavailable));
    RunThree(cfg, s, BeginPropose(c, p, true), ReadElements(c, true), Insert(c));
    hide Run, Step, Move;
  }

  lemma ProposeReads(cfg: Config, s: System, c: nat, p: Plan)
    requires c !in s.callers && Chain(s, cfg.chainOf(p.target)) == []
    ensures Step(cfg, s, BeginPropose(c, p, true)) == Move(s, c, HeadRead(p, None))
    ensures var s1 := Move(s, c, HeadRead(p, None));
            Step(cfg, s1, ReadElements(c, true)) == Move(s1, c, ElementsRead(p, None, []))
  {
    hide FindCommit, Managed;
  }

  lemma ProposeInserts(cfg: Config, s: System, c: nat, t: Target)
    ensures Step(cfg, Move(s, c, ElementsRead(PartPlan(t), None, [])), Insert(c))
            == AfterPropose(s, c, PartStored(cfg, t, None))
  {
    var p := PartStored(cfg, t, None);
    var s1 := Move(s, c, ElementsRead(PartPlan(t), None, []));
    FirstProposal();
    InsertIs(cfg, s1, c);
    MoveAgain(s.(proposals := s.proposals[p.proposal.changeId := p], issued := s.issued + {p}), c,
      s1.callers[c], Done(Proposed(p.proposal)));
    hide Diff, CreatePayload, Step;
  }

  function CheckSteps(c: nat, id: string, expected: Option<string>): seq<Action> {
    [BeginCommit(c, id, expected), TakeLock(c), Recheck(c), ReadHead(c, true)]
  }

  function AfterCheck(s: System, c: nat, op: Op): System {
    Move(s.(locks := s.locks[LockKey(op.Target()) := c]), c, HeadOk(op))
  }

  /** A caller commits its proposal as far as the head check. */
  lemma CheckRun(cfg: Config, s: System, c: nat, op: Op)
    requires c !in s.callers && LockKey(op.Target()) !in s.locks
    requires op.id in s.proposals && s.proposals[op.id] == op.stored && op.expected == op.stored.proposal.base
    requires HeadOf(Chain(s, cfg.chainOf(op.Target()))) == op.expected
    ensures Run(cfg, s, CheckSteps(c, op.id, op.expected)) == AfterCheck(s, c, op)
  {
    RunStep(cfg, s, CheckSteps(c, op.id, op.expected));
    CheckBegin(cfg, s, c, op);
    CheckLock(cfg, s, c, op);
    CheckHead(cfg, s.(locks := s.locks[LockKey(op.Target()) := c]), c, op);
    RunThree(cfg, Move(s, c, Locking(op)), TakeLock(c), Recheck(c), ReadHead(c, true));
    hide Run, Step, LockKey, HeadOf, Move;
  }

  lemma CheckBegin(cfg: Config, s: System, c: nat, op: Op)
    requires c !in s.callers
    requires op.id in s.proposals && s.proposals[op.id] == op.stored && op.expected == op.stored.proposal.base
    ensures Step(cfg, s, BeginCommit(c, op.id, op.expected)) == Move(s, c, Locking(op))
  {
  }

  lemma CheckLock(cfg: Config, s: System, c: nat, op: Op)
    requires LockKey(op.Target()) !in s.locks
    ensures Step(cfg, Move(s, c, Locking(op)), TakeLock(c))
            == Move(s.(locks := s.locks[LockKey(op.Target()) := c]), c, Locked(op))
  {
    hide LockKey;
    MoveAgain(s.(locks := s.locks[LockKey(op.Target()) := c]), c, Locking(op), Locked(op));
  }

  lemma CheckHead(cfg: Config, s: System, c: nat, op: Op)
    requires op.id in s.proposals && HeadOf(Chain(s, cfg.chainOf(op.Target()))) == op.expected
    ensures Step(cfg, Move(s, c, Locked(op)), Recheck(c)) == Move(s, c, Rechecked(op))
    ensures Step(cfg, Move(s, c, Rechecked(op)), ReadHead(c, true)) == Move(s, c, HeadOk(op))
  {
    hide HeadOf;
    MoveAgain(s, c, Locked(op), Rechecked(op));
    MoveAgain(s, c, Rechecked(op), HeadOk(op));
  }

  /** Caller `c` proposes the element and caller `d` commits it as far as the head check. */
  function Prepare(cfg: Config, c: nat, d: nat, t: Target): seq<Action> {
    ProposeSteps(c, PartPlan(t)) + CheckSteps(d, PartStored(cfg, t, None).proposal.changeId, None)
  }

  function PartOp(cfg: Config, t: Target): Op {
    var p := PartStored(cfg, t, None);
    Op(p.proposal.changeId, None, p)
  }

  lemma PrepareRun(cfg: Config, s: System, c: nat, d: nat, t: Target)
    requires c !in s.callers && d !in s.callers && c != d
    requires Chain(s, cfg.chainOf(t)) == [] && LockKey(t) !in s.locks
    ensures var s' := Run(cfg, s, Prepare(cfg, c, d, t));
            && s'.servers == s.servers && s'.flight == s.flight && s'.locks == s.locks[LockKey(t) := d]
            && s'.callers.Keys == s.callers.Keys + {c, d} && s'.callers[d] == HeadOk(PartOp(cfg, t))
            && forall e :: e in s.callers ==> s'.callers[e] == s.callers[e]
  {
    var op := PartOp(cfg, t);
    ProposeRun(cfg, s, c, t);
    RunAppend(cfg, s, ProposeSteps(c, PartPlan(t)), CheckSteps(d, op.id, None));
    CheckRun(cfg, AfterPropose(s, c, op.stored), d, op);
    hide Run, LockKey, ProposeSteps, CheckSteps;
  }

  /** A server that does not check `previousCommit` appends whatever it is sent. */
  lemma WriteRun(cfg: Config, s: System, c: nat, op: Op)
    requires !cfg.enforces && c in s.callers && s.callers[c] == HeadOk(op)
    requires !ServerOf(s, cfg.chainOf(op.Target())).conflictOnce
    ensures var x := cfg.chainOf(op.Target());
            var s', id := Step(cfg, s, Write(c, NoFault)), CommitId(|Chain(s, x)| + 1);
            && s'.callers == s.callers[c := Written(op, id)] && s'.locks == s.locks && s'.proposals == s.proposals
            && |Chain(s', x)| == |Chain(s, x)| + 1 && Chain(s', x)[..|Chain(s, x)|] == Chain(s, x)
            && Chain(s', x)[|Chain(s, x)|].id == id && !ServerOf(s', x).conflictOnce
            && forall y :: y != x ==> ServerOf(s', y) == ServerOf(s, y)
  {
    hide CommitId, ApplyAll;
  }

  lemma WriteKeepsCallers(cfg: Config, s: System, c: nat, op: Op, d: nat)
    requires !cfg.enforces && c in s.callers && s.callers[c] == HeadOk(op) && d in s.callers && d != c
    requires !ServerOf(s, cfg.chainOf(op.Target())).conflictOnce
    ensures var s' := Step(cfg, s, Write(c, NoFault)); d in s'.callers && s'.callers[d] == s.callers[d]
  {
    WriteRun(cfg, s, c, op);
    hide Step;
  }

  /** A caller that has written reports its success. */
  lemma EndRun(cfg: Config, s: System, c: nat, op: Op, commitId: string)
    requires c in s.callers && s.callers[c] == Written(op, commitId)
    ensures var s' := Run(cfg, s, [Remove(c), Unlock(c)]);
            Succeeded(s', c, op.id, op.expected, commitId) && s'.servers == s.servers
  {
    RunTwo(cfg, s, Remove(c), Unlock(c));
    hide Run, LockKey;
  }

  /** A success on an empty branch whose commit came second was not written on its base. */
  lemma SecondIsUnsafe(cfg: Config, s: System, x: ChainId, c: nat, id: string)
    requires Succeeded(s, c, id, None, CommitId(2))
    requires |Chain(s, x)| == 2 && Chain(s, x)[0].id == CommitId(1) && forall y :: y != x ==> Chain(s, y) == []
    ensures !HasCommitted(cfg, s, c, id, None, CommitId(2)) && !Safe(cfg, s)
  {
    if CommitId(1) == CommitId(2) { CommitIdInjective(1, 2); }
    hide CommitId;
    forall y, k: nat, p ensures !CommittedAt(cfg, s, c, y, k, p, id, None, CommitId(2)) {
      assert y == x && k == 1 ==> HeadOf(Chain(s, x)[..k]).Some?;
    }
  }

  // ---------------------------------------------------------------- a writer beside the service

  const Here := Target("p", None)

  /** An outside write between the head check and the service's own write. */
  function Intrusion(cfg: Config): seq<Action> {
    Prepare(cfg, 0, 1, Here) + ([OutsideWrite(cfg.chainOf(Here), None, []), Write(1, NoFault)] + [Remove(1), Unlock(1)])
  }

  lemma IntrusionUnsafe(cfg: Config)
    requires !cfg.enforces && cfg.outsiders
    ensures var s, id := Reached(cfg, Intrusion(cfg)), PartOp(cfg, Here).id;
            Succeeded(s, 1, id, None, CommitId(2)) && !HasCommitted(cfg, s, 1, id, None, CommitId(2))
  {
    var writes, ends := [OutsideWrite(cfg.chainOf(Here), None, []), Write(1, NoFault)], [Remove(1), Unlock(1)];
    PrepareRun(cfg, Initial, 0, 1, Here);
    RunAppend(cfg, Initial, Prepare(cfg, 0, 1, Here), writes + ends);
    hide Run, Step, CommitId, LockKey, Prepare, PartOp;
    IntrusionEnds(cfg, Run(cfg, Initial, Prepare(cfg, 0, 1, Here)));
  }

  lemma IntrusionEnds(cfg: Config, s: System)
    requires !cfg.enforces && cfg.outsiders && s.servers == map[]
    requires 1 in s.callers && s.callers[1] == HeadOk(PartOp(cfg, Here))
    ensures var writes, ends := [OutsideWrite(cfg.chainOf(Here), None, []), Write(1, NoFault)], [Remove(1), Unlock(1)];
            var s', id := Run(cfg, s, writes + ends), PartOp(cfg, Here).id;
            Succeeded(s', 1, id, None, CommitId(2)) && !HasCommitted(cfg, s', 1, id, None, CommitId(2))
  {
    var x, op := cfg.chainOf(Here), PartOp(cfg, Here);
    var s1 := Step(cfg, s, OutsideWrite(x, None, []));
    var s2 := Step(cfg, s1, Write(1, NoFault));
    IntruderWrites(cfg, s, x);
    WriteRun(cfg, s1, 1, op);
    EndRun(cfg, s2, 1, op, CommitId(2));
    RunTwo(cfg, s, OutsideWrite(x, None, []), Write(1, NoFault));
    RunAppend(cfg, s, [OutsideWrite(x, None, []), Write(1, NoFault)], [Remove(1), Unlock(1)]);
    assert op.Target() == Here && op.expected == None;
    hide Run, Step, CommitId, LockKey, PartOp;
    SecondIsUnsafe(cfg, Run(cfg, s2, [Remove(1), Unlock(1)]), x, 1, op.id);
  }

  lemma IntruderWrites(cfg: Config, s: System, x: ChainId)
    requires !cfg.enforces && cfg.outsiders && s.servers == map[]
    ensures var s' := Step(cfg, s, OutsideWrite(x, None, []));
            && |Chain(s', x)| == 1 && Chain(s', x)[0].id == CommitId(1) && !ServerOf(s', x).conflictOnce
            && s'.callers == s.callers && forall y :: y != x ==> Chain(s', y) == []
  {
    hide LockKey, CommitId, ApplyAll, Grounded;
  }

  // ---------------------------------------------------------------- one chain under two locks

  /** Two callers know the same empty chain by names with different locks. Both pass the head
      check before either writes. */
  function TwoNames(cfg: Config, t: Target, u: Target): seq<Action> {
    Prepare(cfg, 0, 2, t) + (Prepare(cfg, 1, 3, u) + ([Write(2, NoFault), Write(3, NoFault)] + [Remove(3), Unlock(3)]))
  }

  lemma TwoNamesUnsafe(cfg: Config, t: Target, u: Target)
    requires !cfg.enforces && cfg.chainOf(t) == cfg.chainOf(u) && LockKey(t) != LockKey(u)
    ensures var s, id := Reached(cfg, TwoNames(cfg, t, u)), PartOp(cfg, u).id;
            Succeeded(s, 3, id, None, CommitId(2)) && !HasCommitted(cfg, s, 3, id, None, CommitId(2))
  {
    var rest := [Write(2, NoFault), Write(3, NoFault)] + [Remove(3), Unlock(3)];
    var s1 := Run(cfg, Initial, Prepare(cfg, 0, 2, t));
    PrepareRun(cfg, Initial, 0, 2, t);
    PrepareRun(cfg, s1, 1, 3, u);
    RunAppend(cfg, Initial, Prepare(cfg, 0, 2, t), Prepare(cfg, 1, 3, u) + rest);
    RunAppend(cfg, s1, Prepare(cfg, 1, 3, u), rest);
    hide Run, Step, CommitId, LockKey, Prepare, PartOp;
    TwoNamesEnd(cfg, Run(cfg, s1, Prepare(cfg, 1, 3, u)), t, u);
  }

  lemma TwoNamesEnd(cfg: Config, s: System, t: Target, u: Target)
    requires !cfg.enforces && cfg.chainOf(t) == cfg.chainOf(u) && s.servers == map[]
    requires 2 in s.callers && s.callers[2] == HeadOk(PartOp(cfg, t))
    requires 3 in s.callers && s.callers[3] == HeadOk(PartOp(cfg, u))
    ensures var s' := Run(cfg, s, [Write(2, NoFault), Write(3, NoFault)] + [Remove(3), Unlock(3)]);
            var id := PartOp(cfg, u).id;
            Succeeded(s', 3, id, None, CommitId(2)) && !HasCommitted(cfg, s', 3, id, None, CommitId(2))
  {
    var x, op := cfg.chainOf(u), PartOp(cfg, u);
    var s1 := Step(cfg, s, Write(2, NoFault));
    var s2 := Step(cfg, s1, Write(3, NoFault));
    assert PartOp(cfg, t).Target() == t && op.Target() == u && op.expected == None;
    WriteRun(cfg, s, 2, PartOp(cfg, t));
    WriteKeepsCallers(cfg, s, 2, PartOp(cfg, t), 3);
    WriteRun(cfg, s1, 3, op);
    EndRun(cfg, s2, 3, op, CommitId(2));
    RunTwo(cfg, s, Write(2, NoFault), Write(3, NoFault));
    RunAppend(cfg, s, [Write(2, NoFault), Write(3, NoFault)], [Remove(3), Unlock(3)]);
    hide Run, Step, CommitId, LockKey, PartOp;
    SecondIsUnsafe(cfg, Run(cfg, s2, [Remove(3), Unlock(3)]), x, 3, op.id);
  }

  // ---------------------------------------------------------------- a write that lands late

  /** A caller gives up on its write and frees the lock. The next one passes the head check before
      that write lands, and writes after it. */
  function LateLanding(cfg: Config): seq<Action> {
    Prepare(cfg, 0, 2, Here) + ([Write(2, Late), Unlock(2)] + (Prepare(cfg, 1, 3, Here)
      + ([Land(2), Write(3, NoFault)] + [Remove(3), Unlock(3)])))
  }

  lemma LateLandingUnsafe(cfg: Config)
    requires !cfg.enforces && cfg.late
    ensures var s, id := Reached(cfg, LateLanding(cfg)), PartOp(cfg, Here).id;
            Succeeded(s, 3, id, None, CommitId(2)) && !HasCommitted(cfg, s, 3, id, None, CommitId(2))
  {
    var ends := [Land(2), Write(3, NoFault)] + [Remove(3), Unlock(3)];
    var s1 := Run(cfg, Initial, Prepare(cfg, 0, 2, Here));
    var s2 := Run(cfg, s1, [Write(2, Late), Unlock(2)]);
    PrepareRun(cfg, Initial, 0, 2, Here);
    RunTwo(cfg, s1, Write(2, Late), Unlock(2));
    GivesUp(cfg, s1, 2, PartOp(cfg, Here));
    assert PartOp(cfg, Here).Target() == Here;
    PrepareRun(cfg, s2, 1, 3, Here);
    RunAppend(cfg, Initial, Prepare(cfg, 0, 2, Here), [Write(2, Late), Unlock(2)] + (Prepare(cfg, 1, 3, Here) + ends));
    RunAppend(cfg, s1, [Write(2, Late), Unlock(2)], Prepare(cfg, 1, 3, Here) + ends);
    RunAppend(cfg, s2, Prepare(cfg, 1, 3, Here), ends);
    hide Run, Step, CommitId, LockKey, Prepare, PartOp;
    LateLandingEnds(cfg, Run(cfg, s2, Prepare(cfg, 1, 3, Here)));
  }

  lemma GivesUp(cfg: Config, s: System, c: nat, op: Op)
    requires cfg.late && c in s.callers && s.callers[c] == HeadOk(op)
    ensures var s' := Step(cfg, Step(cfg, s, Write(c, Late)), Unlock(c));
            && s'.servers == s.servers && s'.flight == s.flight[c := op] && s'.callers.Keys == s.callers.Keys
            && s'.locks == s.locks - {LockKey(op.Target())}
  {
    hide LockKey;
  }

  lemma LateLandingEnds(cfg: Config, s: System)
    requires !cfg.enforces && s.servers == map[]
    requires 2 in s.flight && s.flight[2] == PartOp(cfg, Here)
    requires 3 in s.callers && s.callers[3] == HeadOk(PartOp(cfg, Here))
    ensures var s' := Run(cfg, s, [Land(2), Write(3, NoFault)] + [Remove(3), Unlock(3)]);
            var id := PartOp(cfg, Here).id;
            Succeeded(s', 3, id, None, CommitId(2)) && !HasCommitted(cfg, s', 3, id, None, CommitId(2))
  {
    var x, op := cfg.chainOf(Here), PartOp(cfg, Here);
    var s1 := Step(cfg, s, Land(2));
    var s2 := Step(cfg, s1, Write(3, NoFault));
    assert op.Target() == Here && op.expected == None;
    LandRun(cfg, s, 2, op);
    WriteRun(cfg, s1, 3, op);
    EndRun(cfg, s2, 3, op, CommitId(2));
    RunTwo(cfg, s, Land(2), Write(3, NoFault));
    RunAppend(cfg, s, [Land(2), Write(3, NoFault)], [Remove(3), Unlock(3)]);
    hide Run, Step, CommitId, LockKey, PartOp;
    SecondIsUnsafe(cfg, Run(cfg, s2, [Remove(3), Unlock(3)]), x, 3, op.id);
  }

  lemma LandRun(cfg: Config, s: System, c: nat, op: Op)
    requires !cfg.enforces && s.servers == map[] && c in s.flight && s.flight[c] == op
    ensures var s', x := Step(cfg, s, Land(c)), cfg.chainOf(op.Target());
            && |Chain(s', x)| == 1 && Chain(s', x)[0].id == CommitId(1) && !ServerOf(s', x).conflictOnce
            && s'.callers == s.callers && forall y :: y != x ==> Chain(s', y) == []
  {
    hide LockKey, CommitId, ApplyAll;
  }

  // ---------------------------------------------------------------- exactly when a success stands on its base

  ghost predicate AlwaysSafe(cfg: Config) {
    forall actions :: Safe(cfg, Reached(cfg, actions))
  }

  /** The service is safe on every run exactly when the server checks `previousCommit`, or every
      writer goes through the service, no write lands after its caller gave up on it, and all names of
      a branch share one lock. */
  lemma SafeExactlyWhenGuarded(cfg: Config)
    ensures AlwaysSafe(cfg)
            <==> cfg.enforces
                 || (!cfg.outsiders && !cfg.late
                     && forall t, u :: cfg.chainOf(t) == cfg.chainOf(u) ==> LockKey(t) == LockKey(u))
  {
    hide Reached, LockKey, CommitId, PartStored;
    if Guarded(cfg) {
      forall actions ensures Safe(cfg, Reached(cfg, actions)) {
        SuccessOnBase(cfg, actions);
      }
    } else if cfg.outsiders {
      IntrusionUnsafe(cfg);
      assert !Safe(cfg, Reached(cfg, Intrusion(cfg)));
    } else if cfg.late {
      LateLandingUnsafe(cfg);
      assert !Safe(cfg, Reached(cfg, LateLanding(cfg)));
    } else {
      var t, u :| cfg.chainOf(t) == cfg.chainOf(u) && LockKey(t) != LockKey(u);
      TwoNamesUnsafe(cfg, t, u);
      assert !Safe(cfg, Reached(cfg, TwoNames(cfg, t, u)));
    }
  }

  // ---------------------------------------------------------------- exactly when a success reconciles

  const Planted := DataVersion(Some(map[]), Some(ElementId(1)))

  /** An outside writer updates an absent element under the id that the counter issues next; then a
      caller proposes and commits, undisturbed. */
  function Planting(cfg: Config): seq<Action> {
    [OutsideWrite(cfg.chainOf(Here), None, [Planted])]
    + (ProposeSteps(0, PartPlan(Here)) + CommitSteps(1, PlantedOp(cfg).id, Some(CommitId(1))))
  }

  function PlantedOp(cfg: Config): Op {
    var p := PartStored(cfg, Here, Some(CommitId(1)));
    Op(p.proposal.changeId, Some(CommitId(1)), p)
  }

  function PlantedServer(): State {
    State([Revision(CommitId(1), map[ElementId(1) := map[]], [Planted], Outside, 0)], 0, false)
  }

  lemma Plants(cfg: Config)
    requires cfg.outsiders
    ensures Shows(cfg, Step(cfg, Initial, OutsideWrite(cfg.chainOf(Here), None, [Planted])), cfg.chainOf(Here),
                  PlantedServer(), map[], 0)
    ensures var s := Step(cfg, Initial, OutsideWrite(cfg.chainOf(Here), None, [Planted])); s.callers == map[]
  {
    hide CommitId, ElementId, LockKey, Grounded;
    ApplySnoc(map[], 0, [], Planted);
    assert [] + [Planted] == [Planted];
    var none: Elements := map[];
    assert none[ElementId(1) := map[]] == map[ElementId(1) := map[]];
  }

  /** What the caller proposes there. */
  lemma PlantedProposal(cfg: Config)
    ensures ProposeAlone(PlantedServer(), map[], cfg.changeId, PartPlan(Here))
            == (map[PlantedOp(cfg).id := PlantedOp(cfg).stored], Proposed(PlantedOp(cfg).stored.proposal))
  {
    var cs := PlantedServer().commits;
    FirstProposal();
    NothingManagedThere();
    hide Diff, Managed, CommitId, ElementId, CreatePayload;
    assert ExistingAt(cs, "") == [];
  }

  lemma NothingManagedThere()
    ensures Managed(map[ElementId(1) := map[]], "") == []
  {
    hide ElementId;
    ManagedMembers(map[ElementId(1) := map[]], "");
    hide Managed;
    var r := Managed(map[ElementId(1) := map[]], "");
    assert |r| > 0 ==> r[0] in r;
  }

  lemma ProposeAddsCaller(cfg: Config, s: System, c: nat, p: Plan)
    ensures Run(cfg, s, ProposeSteps(c, p)).callers.Keys <= s.callers.Keys + {c}
  {
    var s1 := Step(cfg, s, BeginPropose(c, p, true));
    var s2 := Step(cfg, s1, ReadElements(c, true));
    RunThree(cfg, s, BeginPropose(c, p, true), ReadElements(c, true), Insert(c));
    ProposeStepsAdd(cfg, s, c, p);
    ProposeStepsAdd(cfg, s1, c, p);
    InsertAdds(cfg, s2, c);
    hide Run, Step;
  }

  lemma ProposeStepsAdd(cfg: Config, s: System, c: nat, p: Plan)
    ensures Step(cfg, s, BeginPropose(c, p, true)).callers.Keys <= s.callers.Keys + {c}
    ensures Step(cfg, s, ReadElements(c, true)).callers.Keys <= s.callers.Keys + {c}
  {
    hide FindCommit, Managed, HeadOf;
  }

  lemma InsertAdds(cfg: Config, s: System, c: nat)
    ensures Step(cfg, s, Insert(c)).callers.Keys <= s.callers.Keys + {c}
  {
    hide Diff;
  }

  /** The commit of the planted run. */
  lemma PlantedCommit(cfg: Config)
    requires cfg.enforces
    ensures var op, server := PlantedOp(cfg), PlantedServer();
            var (server', _, o) := CommitAlone(server, map[op.id := op.stored], true, op.id, op.expected, 1);
            && o == Committed(op.id, op.expected, CommitId(2))
            && |server'.commits| == 2 && server'.commits[..1] == server.commits
            && server'.commits[1].author == Service(1)
            && server'.commits[1].elements == map[ElementId(1) := CreatePayload(Part)]
  {
    var op, server := PlantedOp(cfg), PlantedServer();
    var before: Elements := map[ElementId(1) := map[]];
    var create := DataVersion(Some(CreatePayload(Part)), None);
    hide CommitId, ElementId, CreatePayload;
    ApplySnoc(before, 0, [], create);
    assert [] + [create] == [create];
    assert before[ElementId(1) := CreatePayload(Part)] == map[ElementId(1) := CreatePayload(Part)];
    assert op.stored.changes == [create];
  }

  /** The planted run ends in a success whose revision replaced the planted element. */
  lemma PlantingRun(cfg: Config)
    requires cfg.enforces && cfg.outsiders
    ensures var s, cs := Reached(cfg, Planting(cfg)), Chain(Reached(cfg, Planting(cfg)), cfg.chainOf(Here));
            && Succeeded(s, 1, PlantedOp(cfg).id, Some(CommitId(1)), CommitId(2))
            && |cs| == 2 && cs[..1] == PlantedServer().commits && cs[1].author == Service(1)
            && cs[1].elements == map[ElementId(1) := CreatePayload(Part)]
  {
    var x, op := cfg.chainOf(Here), PlantedOp(cfg);
    var plant, propose, commit := OutsideWrite(x, None, [Planted]), ProposeSteps(0, PartPlan(Here)),
      CommitSteps(1, op.id, op.expected);
    var s1 := Step(cfg, Initial, plant);
    var s2 := Run(cfg, s1, propose);
    Plants(cfg);
    ProposeRefines(cfg, s1, PlantedServer(), map[], 0, PartPlan(Here));
    ProposeAddsCaller(cfg, s1, 0, PartPlan(Here));
    PlantedProposal(cfg);
    assert op.stored.proposal.target == Here && op.expected == Some(CommitId(1));
    assert Shows(cfg, s2, x, PlantedServer(), map[op.id := op.stored], 1);
    CommitRefines(cfg, s2, x, PlantedServer(), map[op.id := op.stored], 1, op.id, op.expected);
    PlantedCommit(cfg);
    RunAppend(cfg, Initial, [plant], propose + commit);
    RunStep(cfg, Initial, [plant]);
    RunAppend(cfg, s1, propose, commit);
    hide Run, Step, CommitId, ElementId, LockKey, ProposeSteps, CommitSteps, CommitAlone, PlantedOp, PlantedServer,
      CreatePayload;
  }

  lemma PlantingUnreconciled(cfg: Config)
    requires cfg.enforces && cfg.outsiders
    ensures var s, id := Reached(cfg, Planting(cfg)), PlantedOp(cfg).id;
            && Succeeded(s, 1, id, Some(CommitId(1)), CommitId(2))
            && !SuccessReconciled(cfg, s, 1, id, Some(CommitId(1)), CommitId(2))
  {
    var s, x, id := Reached(cfg, Planting(cfg)), cfg.chainOf(Here), PlantedOp(cfg).id;
    PlantingRun(cfg);
    hide Run, Planting, CommitId, ElementId, PlantedOp, Reached;
    forall y, k: nat, p | CommittedAt(cfg, s, 1, y, k, p, id, Some(CommitId(1)), CommitId(2))
      ensures !Reconciled(Chain(s, y), k, p)
    {
      OneRevisionEach(cfg, Planting(cfg), x, 1, y, k);
      assert Chain(s, x)[..1] == PlantedServer().commits;
      Overwritten(Chain(s, x), p);
    }
  }

  lemma Overwritten(cs: seq<Revision>, p: Stored)
    requires |cs| == 2 && cs[..1] == PlantedServer().commits
             && cs[1].elements == map[ElementId(1) := CreatePayload(Part)]
    ensures !Reconciled(cs, 1, p)
  {
    hide CommitId, ElementId, Diff, Managed, Matches, NeverUsed, ApplyAll, SuitsIn;
    var before := Tip(cs[..1]);
    assert before == map[ElementId(1) := map[]];
    assert ElementId(1) in before && !IsManaged(before[ElementId(1)], p.prefix);
    assert "identifier" in CreatePayload(Part);
  }

  ghost predicate AlwaysReconciled(cfg: Config) {
    forall actions, c, id, base, commitId ::
      Succeeded(Reached(cfg, actions), c, id, base, commitId)
      ==> SuccessReconciled(cfg, Reached(cfg, actions), c, id, base, commitId)
  }

  /** Every success of every run is reconciled exactly when no writer passes by the service, and the
      server checks `previousCommit`, or no write lands late and all names of a branch share one lock. */
  lemma ReconciledExactlyWithin(cfg: Config)
    ensures AlwaysReconciled(cfg)
            <==> !cfg.outsiders
                 && (cfg.enforces
                     || (!cfg.late && forall t, u :: cfg.chainOf(t) == cfg.chainOf(u) ==> LockKey(t) == LockKey(u)))
  {
    hide Reached, LockKey, CommitId, PartStored, Succeeded, SuccessReconciled;
    if !Guarded(cfg) {
      UnguardedUnreconciled(cfg);
    } else if cfg.outsiders {
      if cfg.enforces { PlantingUnreconciled(cfg); }
    } else {
      forall actions, c, id, base, commitId | Succeeded(Reached(cfg, actions), c, id, base, commitId)
        ensures SuccessReconciled(cfg, Reached(cfg, actions), c, id, base, commitId)
      {
        InsidersAreGrounded(cfg, actions);
        SuccessReconciles(cfg, actions, c, id, base, commitId);
      }
    }
  }

  lemma InsidersAreGrounded(cfg: Config, actions: seq<Action>)
    requires !cfg.outsiders
    ensures Reached(cfg, actions).grounded
  {
    InsidersGrounded(cfg, Initial, actions);
  }

  lemma UnguardedUnreconciled(cfg: Config)
    requires !Guarded(cfg)
    ensures !AlwaysReconciled(cfg)
  {
    hide LockKey, CommitId, PartStored, Reached, Succeeded, Reconciled;
    SafeExactlyWhenGuarded(cfg);
    var actions :| !Safe(cfg, Reached(cfg, actions));
    var s := Reached(cfg, actions);
    var c, id, base, commitId :| Succeeded(s, c, id, base, commitId) && !HasCommitted(cfg, s, c, id, base, commitId);
    assert !SuccessReconciled(cfg, s, c, id, base, commitId);
  }
}
