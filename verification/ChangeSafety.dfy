/** What the commit protocol guarantees over every run, and exactly when. */
module ChangeSafety {
  import opened ChangeProtocol
  import opened ModelServer
  import opened Ordering
  import opened Reconcile
  import opened SyncEngine
  import opened Wrappers

  /** A state some interleaving of callers, outside writers and injected faults leads to. */
  ghost function Reached(cfg: Config, actions: seq<Action>): System {
    Run(cfg, Initial, actions)
  }

  predicate Succeeded(s: System, c: nat, id: string, base: Option<string>, commitId: string) {
    c in s.callers && s.callers[c] == Done(Committed(id, base, commitId))
  }

  /** Every success reported in `s` was written on the base of its own proposal. */
  ghost predicate Safe(cfg: Config, s: System) {
    forall c, id, base, commitId :: Succeeded(s, c, id, base, commitId) ==> HasCommitted(cfg, s, c, id, base, commitId)
  }

  lemma ReachedInv(cfg: Config, actions: seq<Action>)
    requires Guarded(cfg)
    ensures Inv(cfg, Reached(cfg, actions))
  {
    InitialInv(cfg);
    hide Inv, Run;
    RunKeeps(cfg, Initial, actions);
  }

  /** Every successful commit stands on a head equal to its proposal's base and carries the
      proposed changes. */
  lemma SuccessOnBase(cfg: Config, actions: seq<Action>)
    requires Guarded(cfg)
    ensures Safe(cfg, Reached(cfg, actions))
  {
    var s := Reached(cfg, actions);
    ReachedInv(cfg, actions);
    hide Reached, CommitsOk, AllIssuedOk, ProposalsOk, OneCommitEach, AllCountersOk, HasCommitted;
    forall c, id, base, commitId | Succeeded(s, c, id, base, commitId)
      ensures HasCommitted(cfg, s, c, id, base, commitId) {
      CallerFact(cfg, s, c);
    }
  }

  /** At most one call succeeds on each base revision of a chain, by whatever names the callers know it. */
  lemma OneSuccessPerBase(cfg: Config, actions: seq<Action>, x: ChainId, base: Option<string>,
                          c: nat, id: string, j: nat, p: Stored, commitId: string,
                          d: nat, id': string, k: nat, p': Stored, commitId': string)
    requires Guarded(cfg)
    requires CommittedAt(cfg, Reached(cfg, actions), c, x, j, p, id, base, commitId)
    requires CommittedAt(cfg, Reached(cfg, actions), d, x, k, p', id', base, commitId')
    ensures c == d && j == k && commitId == commitId'
  {
    ReachedInv(cfg, actions);
    hide Reached, CommitsOk, CallersOk, AllIssuedOk, ProposalsOk, OneCommitEach, AllCountersOk;
    HeadPosition(cfg, Reached(cfg, actions), x, j, k, base);
  }

  // ---------------------------------------------------------------- change ids

  /** Among the proposals in play, the hash behind change ids has no collision. */
  ghost predicate NoCollisions(cfg: Config, s: System) {
    forall p, q :: p in s.issued && q in s.issued && Digest(cfg, p) == Digest(cfg, q)
      ==> p.proposal.target == q.proposal.target && p.proposal.base == q.proposal.base
  }

  function Digest(cfg: Config, p: Stored): string {
    cfg.changeId(p.proposal.target, p.proposal.base, p.changes)
  }

  ghost predicate IdsAreDigests(cfg: Config, s: System) {
    forall p :: p in s.issued ==> p.proposal.changeId == Digest(cfg, p)
  }

  lemma StepDigests(cfg: Config, s: System, a: Action)
    requires IdsAreDigests(cfg, s)
    ensures IdsAreDigests(cfg, Step(cfg, s, a))
  {
    hide Diff, Post, LockKey, FindCommit, Managed, HeadOf;
  }

  lemma {:induction false} RunDigests(cfg: Config, s: System, actions: seq<Action>)
    requires IdsAreDigests(cfg, s)
    ensures IdsAreDigests(cfg, Run(cfg, s, actions))
    decreases |actions|
  {
    hide Step, IdsAreDigests;
    if actions != [] {
      StepDigests(cfg, s, actions[0]);
      RunDigests(cfg, Step(cfg, s, actions[0]), actions[1..]);
    }
  }

  /** No change id is committed twice, whoever proposes it again. */
  lemma ChangeCommitsOnce(cfg: Config, actions: seq<Action>, id: string, c: nat, base: Option<string>, commitId: string,
                          d: nat, base': Option<string>, commitId': string)
    requires Guarded(cfg) && NoCollisions(cfg, Reached(cfg, actions))
    requires Succeeded(Reached(cfg, actions), c, id, base, commitId)
    requires Succeeded(Reached(cfg, actions), d, id, base', commitId')
    ensures c == d
  {
    var s := Reached(cfg, actions);
    SuccessOnBase(cfg, actions);
    RunDigests(cfg, Initial, actions);
    hide Run, Succeeded;
    assert HasCommitted(cfg, s, c, id, base, commitId) && HasCommitted(cfg, s, d, id, base', commitId');
    var x, j: nat, p :| CommittedAt(cfg, s, c, x, j, p, id, base, commitId);
    var y, k: nat, q :| CommittedAt(cfg, s, d, y, k, q, id, base', commitId');
    assert Digest(cfg, p) == Digest(cfg, q);
    hide Digest, Safe;
    OneSuccessPerBase(cfg, actions, x, base, c, id, j, p, commitId, d, id, k, q, commitId');
  }

  // ---------------------------------------------------------------- failures

  predicate EndedUnwritten(pc: Pc) {
    pc.Done? && !pc.outcome.Committed? && (pc.outcome.Failed? ==> !pc.outcome.error.Backend?)
  }

  /** A call that ends in anything but a success or a backend error wrote nothing, on any chain. */
  lemma FailureWroteNothing(cfg: Config, actions: seq<Action>, c: nat)
    requires Guarded(cfg)
    requires c in Reached(cfg, actions).callers && EndedUnwritten(Reached(cfg, actions).callers[c])
    ensures forall x, k :: 0 <= k < |Chain(Reached(cfg, actions), x)| ==>
            Chain(Reached(cfg, actions), x)[k].author != Service(c)
  {
    ReachedInv(cfg, actions);
    hide Reached, CommitsOk, CallersOk, AllIssuedOk, ProposalsOk, OneCommitEach, AllCountersOk;
    NotYetWritten(cfg, Reached(cfg, actions), c);
  }

  /** Whatever a caller was told, it wrote at most one revision. */
  lemma OneRevisionEach(cfg: Config, actions: seq<Action>, x: ChainId, j: nat, y: ChainId, k: nat)
    requires Guarded(cfg)
    requires var s := Reached(cfg, actions);
             j < |Chain(s, x)| && k < |Chain(s, y)| && Chain(s, x)[j].author.Service?
               && Chain(s, x)[j].author == Chain(s, y)[k].author
    ensures x == y && j == k
  {
    ReachedInv(cfg, actions);
    hide Reached, CommitsOk, CallersOk, AllIssuedOk, ProposalsOk, AllCountersOk;
    assert SameCaller(Chain(Reached(cfg, actions), x)[j], Chain(Reached(cfg, actions), y)[k]);
  }

  /** Revisions written through the service are proposed changes, on the base they were computed
      against, even when the reply to the write was lost. */
  lemma EveryServiceRevision(cfg: Config, actions: seq<Action>, x: ChainId, k: nat)
    requires Guarded(cfg)
    requires var s := Reached(cfg, actions); k < |Chain(s, x)| && Chain(s, x)[k].author.Service?
    ensures Backed(cfg, Reached(cfg, actions), x, k)
  {
    ReachedInv(cfg, actions);
    hide Reached, CallersOk, AllIssuedOk, ProposalsOk, OneCommitEach, AllCountersOk, Backed, RevisionOk, MayHaveWritten;
    assert CommitOk(cfg, Reached(cfg, actions), x, k);
  }

  // ---------------------------------------------------------------- history is append-only

  lemma PostExtends(server: State, enforces: bool, previous: Option<string>, changes: seq<DataVersion>, author: Author)
    ensures server.commits <= Post(server, enforces, previous, changes, author).0.commits
  {
    hide ApplyAll;
  }

  lemma StepExtends(cfg: Config, s: System, a: Action, x: ChainId)
    ensures Chain(s, x) <= Chain(Step(cfg, s, a), x)
  {
    hide WriteAt, LandStep, OutsideStep, InsertAt, LockKey, FindCommit, HeadOf, Managed;
    match a
    case OutsideWrite(y, previous, changes) => OutsideExtends(cfg, s, y, previous, changes, x);
    case Write(c, fault) => WriteExtends(cfg, s, c, fault, x);
    case Land(c) => LandExtends(cfg, s, c, x);
    case Insert(c) => InsertExtends(cfg, s, c, x);
    case _ =>
  }

  lemma OutsideExtends(cfg: Config, s: System, y: ChainId, previous: Option<string>, changes: seq<DataVersion>,
                       x: ChainId)
    ensures Chain(s, x) <= Chain(OutsideStep(cfg, s, y, previous, changes), x)
  {
    PostExtends(ServerOf(s, y), cfg.enforces, previous, changes, Outside);
    hide Post, Grounded;
  }

  lemma WriteExtends(cfg: Config, s: System, c: nat, fault: Fault, x: ChainId)
    ensures Chain(s, x) <= Chain(WriteAt(cfg, s, c, fault), x)
  {
    if c in s.callers && s.callers[c].HeadOk? {
      var op := s.callers[c].op;
      PostExtends(ServerOf(s, cfg.chainOf(op.Target())), cfg.enforces, op.expected, op.stored.changes, Service(c));
    }
    hide Post;
  }

  lemma LandExtends(cfg: Config, s: System, c: nat, x: ChainId)
    ensures Chain(s, x) <= Chain(LandStep(cfg, s, c), x)
  {
    if c in s.flight {
      var op := s.flight[c];
      PostExtends(ServerOf(s, cfg.chainOf(op.Target())), cfg.enforces, op.expected, op.stored.changes, Service(c));
    }
    hide Post;
  }

  lemma InsertExtends(cfg: Config, s: System, c: nat, x: ChainId)
    ensures Chain(s, x) <= Chain(InsertAt(cfg, s, c), x)
  {
    hide Diff;
  }

  /** Later steps never rewrite the history of a chain, under any configuration. */
  lemma {:induction false} HistoryGrows(cfg: Config, s: System, actions: seq<Action>, x: ChainId)
    ensures Chain(s, x) <= Chain(Run(cfg, s, actions), x)
    decreases |actions|
  {
    hide Step, Chain;
    if actions != [] {
      StepExtends(cfg, s, actions[0], x);
      HistoryGrows(cfg, Step(cfg, s, actions[0]), actions[1..], x);
    }
  }

  // ---------------------------------------------------------------- what a committed revision holds

  /** Changes leave an element they do not name as it was. */
  lemma {:induction false} UnnamedUntouched(els: Elements, next: nat, changes: seq<DataVersion>, i: string)
    requires IdsIssued(els, next) && i in els
    requires forall c :: c in changes && c.identity.Some? ==> c.identity.value in els && c.identity.value != i
    ensures var (m, n) := ApplyAll(els, next, changes); IdsIssued(m, n) && n >= next && i in m && m[i] == els[i]
    decreases |changes|
  {
    if changes != [] {
      var rest, c := changes[..|changes| - 1], changes[|changes| - 1];
      assert changes == rest + [c];
      UnnamedUntouched(els, next, rest, i);
      GroundedIssued(els, next, rest);
      GroundedIssued(els, next, changes);
      var (m, n) := ApplyAll(els, next, rest);
      FreshId(m, n);
      hide Issued, IdsIssued, ElementId, ApplyAll;
      ApplySnoc(els, next, rest, c);
    }
  }

  /** An element a changeset adds has an id the counter issued for it. */
  lemma {:induction false} AddedIsNew(els: Elements, next: nat, changes: seq<DataVersion>, i: string)
    requires forall c :: c in changes && c.identity.Some? ==> c.identity.value in els
    requires i !in els && i in ApplyAll(els, next, changes).0
    ensures exists j: nat :: next < j <= ApplyAll(els, next, changes).1 && i == ElementId(j)
    decreases |changes|
  {
    if changes != [] {
      var rest, c := changes[..|changes| - 1], changes[|changes| - 1];
      assert changes == rest + [c];
      hide ElementId, ApplyAll;
      ApplySnoc(els, next, rest, c);
      CounterGrows(els, next, rest);
      if i in ApplyAll(els, next, rest).0 { AddedIsNew(els, next, rest, i); }
    }
  }

  lemma {:induction false} CounterGrows(els: Elements, next: nat, changes: seq<DataVersion>)
    ensures ApplyAll(els, next, changes).1 >= next
    decreases |changes|
  {
    if changes != [] { CounterGrows(els, next, changes[..|changes| - 1]); }
  }

  /** No earlier revision of the chain uses the id. */
  ghost predicate NeverUsed(cs: seq<Revision>, k: nat, i: string)
    requires k <= |cs|
  {
    forall n :: 0 <= n <= k ==> i !in Tip(cs[..n])
  }

  lemma NewIdNeverUsed(cs: seq<Revision>, next: nat, k: nat, j: nat)
    requires CountersOk(cs, next) && k < |cs| && j > cs[k].counter
    ensures NeverUsed(cs, k, ElementId(j))
  {
    hide ElementId, Tip;
    forall n | 0 <= n <= k ensures ElementId(j) !in Tip(cs[..n]) {
      assert IdsIssued(Tip(cs[..n]), cs[n].counter) && cs[n].counter <= cs[k].counter;
      if ElementId(j) in Tip(cs[..n]) {
        assert Issued(ElementId(j), cs[n].counter);
        var i: nat :| i <= cs[n].counter && ElementId(j) == ElementId(i);
        ElementIdInjective(i, j);
      }
    }
  }

  /** The revision `k` realizes `p`: its elements are those of the base with the changes applied,
      nothing outside the managed prefix is touched, every added element has an id no earlier
      revision used, and a desired set that suits the prefix is reached. */
  ghost predicate Reconciled(cs: seq<Revision>, k: nat, p: Stored)
    requires k < |cs|
  {
    var before, after := Tip(cs[..k]), cs[k].elements;
    && Diff(Managed(before, p.prefix), p.desired) == Ok(p.changes)
    && after == ApplyAll(before, cs[k].counter, p.changes).0
    && (forall i :: i in before && !IsManaged(before[i], p.prefix) ==> i in after && after[i] == before[i])
    && (forall i :: i in after && i !in before ==> NeverUsed(cs, k, i))
    && (SuitsIn(before, p.prefix, p.desired) ==>
          Matches(after, p.prefix, p.desired) && Diff(Managed(after, p.prefix), p.desired) == Ok([]))
  }

  lemma RealizedAgainstBase(cfg: Config, s: System, x: ChainId, k: nat, p: Stored)
    requires CommitsOk(cfg, s) && AllIssuedOk(cfg, s) && p in s.issued && cfg.chainOf(p.proposal.target) == x
    requires k < |Chain(s, x)| && Realizes(Chain(s, x), k, p)
    ensures Diff(Managed(Tip(Chain(s, x)[..k]), p.prefix), p.desired) == Ok(p.changes)
  {
    hide Diff, Managed, CommitsOk;
    assert IssuedOk(cfg, s, p);
    var n: nat :| ComputedAt(Chain(s, x), n, p);
    HeadPosition(cfg, s, x, n, k, p.proposal.base);
  }

  lemma ManagedIdsOnly(els: Elements, p: Stored, i: string)
    requires Diff(Managed(els, p.prefix), p.desired) == Ok(p.changes)
    requires i in els && !IsManaged(els[i], p.prefix)
    ensures forall c :: c in p.changes && c.identity.Some? ==> c.identity.value in els && c.identity.value != i
  {
    DiffContract(Managed(els, p.prefix), p.desired, p.changes);
    ManagedMembers(els, p.prefix);
    hide Managed, Diff, ReadElement, IsManaged;
    forall c | c in p.changes && c.identity.Some? ensures c.identity.value in els && c.identity.value != i {
      var e :| e in Managed(els, p.prefix) && e.id == c.identity.value;
    }
  }

  lemma RevisionReconciled(cfg: Config, s: System, x: ChainId, k: nat, p: Stored)
    requires CommitsOk(cfg, s) && AllIssuedOk(cfg, s) && p in s.issued && cfg.chainOf(p.proposal.target) == x
    requires CountersOk(Chain(s, x), ServerOf(s, x).nextElement)
    requires k < |Chain(s, x)| && Realizes(Chain(s, x), k, p)
    ensures Reconciled(Chain(s, x), k, p)
  {
    var cs := Chain(s, x);
    var before, next, after := Tip(cs[..k]), cs[k].counter, cs[k].elements;
    assert RevisionOk(cs, k) by { assert CommitOk(cfg, s, x, k); }
    RealizedAgainstBase(cfg, s, x, k, p);
    assert after == ApplyAll(before, next, p.changes).0 && IdsIssued(before, next);
    hide CommitsOk, AllIssuedOk, Realizes, RevisionOk, Diff, Managed, ApplyAll, IdsIssued, Tip, Chain, IsManaged,
      Matches;
    forall i | i in before && !IsManaged(before[i], p.prefix) ensures i in after && after[i] == before[i] {
      ManagedIdsOnly(before, p, i);
      UnnamedUntouched(before, next, p.changes, i);
    }
    DiffGrounded(before, p.prefix, p.desired, p.changes);
    forall i | i in after && i !in before ensures NeverUsed(cs, k, i) {
      AddedIsNew(before, next, p.changes, i);
      var j: nat :| next < j && i == ElementId(j);
      NewIdNeverUsed(cs, ServerOf(s, x).nextElement, k, j);
    }
    if SuitsIn(before, p.prefix, p.desired) {
      CommitReconciles(before, next, p.prefix, p.desired, p.changes);
      SecondDiffEmpty(before, next, p.prefix, p.desired, p.changes);
    }
  }

  /** A revision of any run that realizes a proposal inside its prefix leaves everything else alone
      and reaches the desired set exactly when no id its creates were issued was in use before it. */
  lemma RevisionReconciledExactly(cfg: Config, actions: seq<Action>, x: ChainId, k: nat, p: Stored)
    requires Guarded(cfg)
    requires var s := Reached(cfg, actions);
             p in s.issued && cfg.chainOf(p.proposal.target) == x && k < |Chain(s, x)| && Realizes(Chain(s, x), k, p)
    requires SuitsIn(Tip(Chain(Reached(cfg, actions), x)[..k]), p.prefix, p.desired)
    ensures var cs := Chain(Reached(cfg, actions), x);
            var before, next := Tip(cs[..k]), cs[k].counter;
            Achieved(before, cs[k].elements, p.prefix, p.desired)
            <==> forall j: nat :: next < j <= ApplyAll(before, next, p.changes).1 ==> ElementId(j) !in before
  {
    var cs := Chain(Reached(cfg, actions), x);
    hide *;
    ReachedInv(cfg, actions);
    InvGives(cfg, Reached(cfg, actions));
    RevisionApplies(cfg, Reached(cfg, actions), x, k, p);
    ReconcilesExactly(Tip(cs[..k]), cs[k].counter, p.prefix, p.desired, p.changes);
  }

  /** A revision applies the changes of the proposal it realizes. */
  lemma RevisionApplies(cfg: Config, s: System, x: ChainId, k: nat, p: Stored)
    requires CommitsOk(cfg, s) && AllIssuedOk(cfg, s) && p in s.issued && cfg.chainOf(p.proposal.target) == x
    requires k < |Chain(s, x)| && Realizes(Chain(s, x), k, p)
    ensures var cs := Chain(s, x);
            && Diff(Managed(Tip(cs[..k]), p.prefix), p.desired) == Ok(p.changes)
            && cs[k].elements == ApplyAll(Tip(cs[..k]), cs[k].counter, p.changes).0
  {
    assert RevisionOk(Chain(s, x), k) by { assert CommitOk(cfg, s, x, k); }
    hide CommitsOk, AllIssuedOk, ApplyAll, Diff, Managed, Tip;
    RealizedAgainstBase(cfg, s, x, k, p);
  }

  ghost predicate SuccessReconciled(cfg: Config, s: System, c: nat, id: string, base: Option<string>,
                                    commitId: string) {
    exists x, k: nat, p :: CommittedAt(cfg, s, c, x, k, p, id, base, commitId) && Reconciled(Chain(s, x), k, p)
  }

  /** What a successful commit left on the server, as long as outside writers update only elements
      that exist. */
  lemma SuccessReconciles(cfg: Config, actions: seq<Action>, c: nat, id: string, base: Option<string>, commitId: string)
    requires Guarded(cfg) && Reached(cfg, actions).grounded
    requires Succeeded(Reached(cfg, actions), c, id, base, commitId)
    ensures SuccessReconciled(cfg, Reached(cfg, actions), c, id, base, commitId)
  {
    var s := Reached(cfg, actions);
    ReachedInv(cfg, actions);
    SuccessOnBase(cfg, actions);
    hide Reached, CommitsOk, CallersOk, AllIssuedOk, ProposalsOk, OneCommitEach, CountersOk, Succeeded, Reconciled,
      Realizes;
    assert HasCommitted(cfg, s, c, id, base, commitId);
    var x, k: nat, p :| CommittedAt(cfg, s, c, x, k, p, id, base, commitId);
    RevisionReconciled(cfg, s, x, k, p);
  }

  lemma StepGrounded(cfg: Config, s: System, a: Action)
    requires !cfg.outsiders
    ensures Step(cfg, s, a).grounded == s.grounded
  {
    hide WriteAt, InsertAt, LandStep, LockKey, FindCommit, Managed, HeadOf;
    WriteGrounded(cfg, s, a);
    match a
    case _ =>
  }

  lemma WriteGrounded(cfg: Config, s: System, a: Action)
    ensures a.Write? ==> WriteAt(cfg, s, a.caller, a.fault).grounded == s.grounded
    ensures a.Land? ==> LandStep(cfg, s, a.caller).grounded == s.grounded
    ensures a.Insert? ==> InsertAt(cfg, s, a.caller).grounded == s.grounded
  {
    hide Diff, Post;
  }

  /** Without outside writers that proviso always holds. */
  lemma {:induction false} InsidersGrounded(cfg: Config, s: System, actions: seq<Action>)
    requires !cfg.outsiders
    ensures Run(cfg, s, actions).grounded == s.grounded
    decreases |actions|
  {
    if actions != [] {
      hide Step;
      StepGrounded(cfg, s, actions[0]);
      InsidersGrounded(cfg, Step(cfg, s, actions[0]), actions[1..]);
    }
  }
}
