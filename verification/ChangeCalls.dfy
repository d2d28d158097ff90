/** `ChangeService` called by one caller at a time, over the stateful server: each call is a solo
    run of the protocol's steps. */
module ChangeCalls {
  import opened ChangeProtocol
  import opened ModelServer
  import opened Reconcile
  import opened SyncEngine
  import opened Wrappers

  /** The steps of one commit call, in order; those its outcome skips are not enabled. */
  function CommitSteps(c: nat, id: string, expected: Option<string>): seq<Action> {
    [BeginCommit(c, id, expected), TakeLock(c), Recheck(c), ReadHead(c, true),
     Write(c, NoFault), ReadHeadAgain(c, true), Remove(c), Unlock(c)]
  }

  function ProposeSteps(c: nat, p: Plan): seq<Action> {
    [BeginPropose(c, p, true), ReadElements(c, true), Insert(c)]
  }

  /** A commit nobody else interferes with: the new server and proposals, and the outcome. */
  function CommitAlone(server: State, proposals: map<string, Stored>, enforces: bool, id: string,
                       expected: Option<string>, c: nat)
    : (State, map<string, Stored>, Outcome)
  {
    if id !in proposals then (server, proposals, Failed(UnknownChange(id)))
    else if expected != proposals[id].proposal.base then
      (server, proposals, Failed(ProposalMismatch(expected, proposals[id].proposal.base)))
    else if HeadOf(server.commits) != expected then
      (server, proposals, Failed(StaleBase(expected, HeadOf(server.commits))))
    else
      var (server', r) := Post(server, enforces, expected, proposals[id].changes, Service(c));
      match r
      case Ok(commitId) => (server', proposals - {id}, Committed(id, expected, commitId))
      case Err(Conflict) => (server', proposals, Failed(StaleBase(expected, HeadOf(server'.commits))))
      case Err(e) => (server', proposals, Failed(Backend(e)))
  }

  /** No lock of the chain is taken. */
  ghost predicate Unlocked(cfg: Config, s: System, x: ChainId) {
    forall t :: cfg.chainOf(t) == x ==> LockKey(t) !in s.locks
  }

  /** No other lock of the chain is taken than this one. */
  ghost predicate OnlyLock(cfg: Config, s: System, x: ChainId, key: string) {
    forall t :: cfg.chainOf(t) == x && LockKey(t) in s.locks ==> LockKey(t) == key
  }

  /** Caller `c` is new, nobody holds a lock of the chain, and the machine shows this service. */
  ghost predicate Shows(cfg: Config, s: System, x: ChainId, server: State, proposals: map<string, Stored>, c: nat) {
    ServerOf(s, x) == server && s.proposals == proposals && c !in s.callers && Unlocked(cfg, s, x)
  }

  ghost predicate Ended(cfg: Config, s: System, x: ChainId, server: State, proposals: map<string, Stored>, c: nat,
                        o: Outcome) {
    && ServerOf(s, x) == server && s.proposals == proposals
    && c in s.callers && s.callers[c] == Done(o) && Unlocked(cfg, s, x)
  }

  lemma RunStep(cfg: Config, s: System, a: seq<Action>)
    requires a != []
    ensures Run(cfg, s, a) == Run(cfg, Step(cfg, s, a[0]), a[1..])
  {
    hide Step;
  }

  /** Once a call is over, its remaining steps do nothing. */
  lemma {:induction false} DoneStays(cfg: Config, s: System, c: nat, a: seq<Action>)
    requires c in s.callers && s.callers[c].Done?
    requires forall x :: x in a ==>
             x in [TakeLock(c), Recheck(c), ReadHead(c, true), Write(c, NoFault), ReadHeadAgain(c, true), Remove(c),
                   Unlock(c)]
    ensures Run(cfg, s, a) == s
    decreases |a|
  {
    if a != [] {
      assert a[0] in a;
      DoneNext(cfg, s, c, a[0]);
      hide Step;
      DoneStays(cfg, s, c, a[1..]);
    }
  }

  lemma DoneNext(cfg: Config, s: System, c: nat, x: Action)
    requires c in s.callers && s.callers[c].Done?
    requires x in [TakeLock(c), Recheck(c), ReadHead(c, true), Write(c, NoFault), ReadHeadAgain(c, true), Remove(c),
                   Unlock(c)]
    ensures Step(cfg, s, x) == s
  {
  }

  /** Running the steps of a commit call alone is `CommitAlone`. */
  lemma CommitRefines(cfg: Config, s: System, x: ChainId, server: State, proposals: map<string, Stored>, c: nat,
                      id: string, expected: Option<string>)
    requires Shows(cfg, s, x, server, proposals, c)
    requires id in proposals ==> cfg.chainOf(proposals[id].proposal.target) == x
    ensures var (server', proposals', o) := CommitAlone(server, proposals, cfg.enforces, id, expected, c);
            Ended(cfg, Run(cfg, s, CommitSteps(c, id, expected)), x, server', proposals', c, o)
  {
    var a := CommitSteps(c, id, expected);
    var s1 := Step(cfg, s, a[0]);
    hide LockKey;
    RunStep(cfg, s, a);
    if id !in proposals || expected != proposals[id].proposal.base {
      DoneStays(cfg, s1, c, a[1..]);
    } else {
      LockedRefines(cfg, s1, x, c, Op(id, expected, proposals[id]), a[1..]);
    }
  }

  lemma LockedRefines(cfg: Config, s: System, x: ChainId, c: nat, op: Op, a: seq<Action>)
    requires c in s.callers && s.callers[c] == Locking(op) && Unlocked(cfg, s, x) && cfg.chainOf(op.Target()) == x
    requires op.id in s.proposals && s.proposals[op.id] == op.stored && op.expected == op.stored.proposal.base
    requires a == CommitSteps(c, op.id, op.expected)[1..]
    ensures var (server', proposals', o) :=
            CommitAlone(ServerOf(s, x), s.proposals, cfg.enforces, op.id, op.expected, c);
            Ended(cfg, Run(cfg, s, a), x, server', proposals', c, o)
  {
    var s2 := Step(cfg, s, a[0]);
    var s3 := Step(cfg, s2, a[1]);
    var s4 := Step(cfg, s3, a[2]);
    RunStep(cfg, s, a);
    RunStep(cfg, s2, a[1..]);
    RunStep(cfg, s3, a[2..]);
    assert a[1..][0] == a[1] && a[2..][0] == a[2] && a[1..][1..] == a[2..] && a[2..][1..] == a[3..];
    CheckedSteps(cfg, s, x, c, op);
    hide Step, LockKey, CommitAlone;
    WrittenRefines(cfg, s4, x, c, op, a[3..]);
  }

  /** Lock, recheck and head check. */
  lemma CheckedSteps(cfg: Config, s: System, x: ChainId, c: nat, op: Op)
    requires c in s.callers && s.callers[c] == Locking(op) && Unlocked(cfg, s, x) && cfg.chainOf(op.Target()) == x
             && op.id in s.proposals
    ensures var s' := Step(cfg, Step(cfg, Step(cfg, s, TakeLock(c)), Recheck(c)), ReadHead(c, true));
            var current := HeadOf(Chain(s, x));
            && s'.servers == s.servers && s'.proposals == s.proposals && s'.locks == s.locks[LockKey(op.Target()) := c]
            && c in s'.callers
                 && s'.callers[c] == if current != op.expected
                      then Returning(op, Failed(StaleBase(op.expected, current))) else HeadOk(op)
  {
    hide LockKey, HeadOf;
  }

  lemma WrittenRefines(cfg: Config, s: System, x: ChainId, c: nat, op: Op, a: seq<Action>)
    requires OnlyLock(cfg, s, x, LockKey(op.Target())) && cfg.chainOf(op.Target()) == x
    requires op.id in s.proposals && s.proposals[op.id] == op.stored && op.expected == op.stored.proposal.base
    requires var current := HeadOf(Chain(s, x));
             c in s.callers
               && s.callers[c] == if current != op.expected then Returning(op, Failed(StaleBase(op.expected, current)))
                    else HeadOk(op)
    requires a == [Write(c, NoFault), ReadHeadAgain(c, true), Remove(c), Unlock(c)]
    ensures var (server', proposals', o) :=
            CommitAlone(ServerOf(s, x), s.proposals, cfg.enforces, op.id, op.expected, c);
            Ended(cfg, Run(cfg, s, a), x, server', proposals', c, o)
  {
    hide Step, LockKey, CommitAlone;
    var s1 := Step(cfg, s, a[0]);
    var s2 := Step(cfg, s1, a[1]);
    var s3 := Step(cfg, s2, a[2]);
    RunStep(cfg, s, a);
    RunStep(cfg, s1, a[1..]);
    RunStep(cfg, s2, a[2..]);
    RunStep(cfg, s3, a[3..]);
    assert a[3..][1..] == [];
    if HeadOf(Chain(s, x)) == op.expected {
      PostSteps(cfg, s, x, c, op);
    } else {
      StaleSteps(cfg, s, x, c, op);
    }
  }

  lemma StaleSteps(cfg: Config, s: System, x: ChainId, c: nat, op: Op)
    requires OnlyLock(cfg, s, x, LockKey(op.Target())) && cfg.chainOf(op.Target()) == x
    requires op.id in s.proposals && s.proposals[op.id] == op.stored && op.expected == op.stored.proposal.base
    requires HeadOf(Chain(s, x)) != op.expected
    requires c in s.callers && s.callers[c] == Returning(op, Failed(StaleBase(op.expected, HeadOf(Chain(s, x)))))
    ensures var s' :=
            Step(cfg, Step(cfg, Step(cfg, Step(cfg, s, Write(c, NoFault)), ReadHeadAgain(c, true)), Remove(c)),
                 Unlock(c));
            var (server', proposals', o) :=
              CommitAlone(ServerOf(s, x), s.proposals, cfg.enforces, op.id, op.expected, c);
            Ended(cfg, s', x, server', proposals', c, o)
  {
    hide LockKey, Post, HeadOf;
  }

  lemma PostSteps(cfg: Config, s: System, x: ChainId, c: nat, op: Op)
    requires OnlyLock(cfg, s, x, LockKey(op.Target())) && cfg.chainOf(op.Target()) == x
    requires op.id in s.proposals && s.proposals[op.id] == op.stored && op.expected == op.stored.proposal.base
    requires HeadOf(Chain(s, x)) == op.expected
    requires c in s.callers && s.callers[c] == HeadOk(op)
    ensures var s' :=
            Step(cfg, Step(cfg, Step(cfg, Step(cfg, s, Write(c, NoFault)), ReadHeadAgain(c, true)), Remove(c)),
                 Unlock(c));
            var (server', proposals', o) :=
              CommitAlone(ServerOf(s, x), s.proposals, cfg.enforces, op.id, op.expected, c);
            Ended(cfg, s', x, server', proposals', c, o)
  {
    hide LockKey, Post, HeadOf, Ended, CommitAlone;
    var r := Post(ServerOf(s, x), cfg.enforces, op.expected, op.stored.changes, Service(c));
    var s1 := Step(cfg, s, Write(c, NoFault));
    assert s1 == Move(s.(servers := s.servers[x := r.0]), c, AfterPost(op, NoFault, r.1));
    AfterSteps(cfg, s, s1, x, c, op, r.0, r.1);
  }

  lemma AfterSteps(cfg: Config, before: System, s: System, x: ChainId, c: nat, op: Op, server: State,
                   r: Result<string, BackendError>)
    requires cfg.chainOf(op.Target()) == x && op.id in before.proposals && before.proposals[op.id] == op.stored
    requires op.expected == op.stored.proposal.base && HeadOf(Chain(before, x)) == op.expected
    requires (server, r) == Post(ServerOf(before, x), cfg.enforces, op.expected, op.stored.changes, Service(c))
    requires s == Move(before.(servers := before.servers[x := server]), c, AfterPost(op, NoFault, r))
    requires OnlyLock(cfg, before, x, LockKey(op.Target()))
    ensures var s' := Step(cfg, Step(cfg, Step(cfg, s, ReadHeadAgain(c, true)), Remove(c)), Unlock(c));
            var (server', proposals', o) :=
              CommitAlone(ServerOf(before, x), before.proposals, cfg.enforces, op.id, op.expected, c);
            Ended(cfg, s', x, server', proposals', c, o)
  {
    hide LockKey, Post, HeadOf, Ended, CommitAlone, Step;
    ReadAgainStep(cfg, s, c);
    RemoveThenUnlock(cfg, Step(cfg, s, ReadHeadAgain(c, true)), x, c, op);
    AloneAfter(ServerOf(before, x), before.proposals, cfg.enforces, op.id, op.expected, c, server, r);
  }

  lemma ReadAgainStep(cfg: Config, s: System, c: nat)
    requires c in s.callers
    ensures Step(cfg, s, ReadHeadAgain(c, true)) == ReadHeadAgainStep(cfg, s, c, true)
  {
  }

  /** The end of a call that has written, or is returning. */
  lemma RemoveThenUnlock(cfg: Config, s: System, x: ChainId, c: nat, op: Op)
    requires c in s.callers && OnlyLock(cfg, s, x, LockKey(op.Target())) && cfg.chainOf(op.Target()) == x
    requires (s.callers[c].Written? || s.callers[c].Returning?) && s.callers[c].op == op
    ensures var s' := Step(cfg, Step(cfg, s, Remove(c)), Unlock(c));
            if s.callers[c].Written?
            then Ended(cfg, s', x, ServerOf(s, x), s.proposals - {op.id}, c,
                       Committed(op.id, op.expected, s.callers[c].commitId))
            else Ended(cfg, s', x, ServerOf(s, x), s.proposals, c, s.callers[c].outcome)
  {
    hide LockKey;
  }

  lemma AloneAfter(server: State, proposals: map<string, Stored>, enforces: bool, id: string, expected: Option<string>,
                   c: nat, server': State, r: Result<string, BackendError>)
    requires id in proposals && expected == proposals[id].proposal.base && HeadOf(server.commits) == expected
    requires (server', r) == Post(server, enforces, expected, proposals[id].changes, Service(c))
    ensures CommitAlone(server, proposals, enforces, id, expected, c)
            == match r
               case Ok(commitId) => (server', proposals - {id}, Committed(id, expected, commitId))
               case Err(Conflict) => (server', proposals, Failed(StaleBase(expected, HeadOf(server'.commits))))
               case Err(e) => (server', proposals, Failed(Backend(e)))
  {
    hide Post, HeadOf;
  }

  /** When a lone commit succeeds. */
  lemma SucceedsExactly(server: State, proposals: map<string, Stored>, enforces: bool, id: string,
                        expected: Option<string>, c: nat)
    ensures CommitAlone(server, proposals, enforces, id, expected, c).2.Committed?
            <==> id in proposals && expected == proposals[id].proposal.base == HeadOf(server.commits)
                 && !server.conflictOnce
  {
    hide ApplyAll;
  }

  // ---------------------------------------------------------------- proposing

  lemma HeadIsFound(cs: seq<Revision>, k: nat)
    requires k < |cs|
    ensures FindCommit(cs, cs[k].id).Some?
    decreases k
  {
    if k > 0 { HeadIsFound(cs[1..], k - 1); }
  }

  /** The managed elements at the head. */
  function ExistingAt(cs: seq<Revision>, prefix: string): seq<Element> {
    if cs == [] then []
    else
      HeadIsFound(cs, |cs| - 1);
      Managed(FindCommit(cs, cs[|cs| - 1].id).value.elements, prefix)
  }

  /** The proposals and the outcome of a lone propose call; the server is only read. */
  ghost function ProposeAlone(server: State, proposals: map<string, Stored>,
                              changeId: (Target, Option<string>, seq<DataVersion>) -> string, p: Plan)
    : (map<string, Stored>, Outcome)
  {
    var head := HeadOf(server.commits);
    match Diff(ExistingAt(server.commits, p.prefix), p.desired)
    case Err(ids) => (proposals, Failed(Sync(ids)))
    case Ok(changes) =>
      if changes == [] then (proposals, Failed(NoChanges(head)))
      else
        var proposal := ProposedChange(changeId(p.target, head, changes), p.target, head);
        (proposals[proposal.changeId := Stored(proposal, changes, p.prefix, p.desired)], Proposed(proposal))
  }

  /** Running the steps of a propose call alone is `ProposeAlone`. */
  lemma ProposeRefines(cfg: Config, s: System, server: State, proposals: map<string, Stored>, c: nat, p: Plan)
    requires Shows(cfg, s, cfg.chainOf(p.target), server, proposals, c)
    ensures var (proposals', o) := ProposeAlone(server, proposals, cfg.changeId, p);
            Ended(cfg, Run(cfg, s, ProposeSteps(c, p)), cfg.chainOf(p.target), server, proposals', c, o)
  {
    var a := ProposeSteps(c, p);
    hide Step, LockKey, Diff, ExistingAt, HeadOf, ProposeAlone, Shows, Ended;
    var s1 := Step(cfg, s, a[0]);
    var s2 := Step(cfg, s1, a[1]);
    RunStep(cfg, s, a);
    RunStep(cfg, s1, a[1..]);
    RunStep(cfg, s2, a[2..]);
    assert a[2..][1..] == [];
    ReadSteps(cfg, s, server, proposals, c, p);
    InsertRefines(cfg, s, s2, server, proposals, c, p);
  }

  lemma InsertRefines(cfg: Config, before: System, s: System, server: State, proposals: map<string, Stored>, c: nat,
                      p: Plan)
    requires Shows(cfg, before, cfg.chainOf(p.target), server, proposals, c)
    requires s.servers == before.servers && s.proposals == proposals && s.locks == before.locks && c in s.callers
    requires s.callers[c] == ElementsRead(p, HeadOf(server.commits), ExistingAt(server.commits, p.prefix))
    ensures var (proposals', o) := ProposeAlone(server, proposals, cfg.changeId, p);
            Ended(cfg, Step(cfg, s, Insert(c)), cfg.chainOf(p.target), server, proposals', c, o)
  {
    hide Unlocked, LockKey, Diff, ExistingAt, HeadOf, Step;
    var s' := InsertStep(cfg, s, c, p, HeadOf(server.commits), ExistingAt(server.commits, p.prefix));
    InsertIs(cfg, s, c);
    StillUnlocked(cfg, before, s', cfg.chainOf(p.target));
  }

  lemma StillUnlocked(cfg: Config, s: System, s': System, x: ChainId)
    requires s'.locks == s.locks && Unlocked(cfg, s, x)
    ensures Unlocked(cfg, s', x)
  {
    hide LockKey;
  }

  lemma InsertIs(cfg: Config, s: System, c: nat)
    requires c in s.callers && s.callers[c].ElementsRead?
    ensures Step(cfg, s, Insert(c))
            == InsertStep(cfg, s, c, s.callers[c].plan, s.callers[c].head, s.callers[c].existing)
  {
    hide InsertStep;
  }

  lemma ReadSteps(cfg: Config, s: System, server: State, proposals: map<string, Stored>, c: nat, p: Plan)
    requires Shows(cfg, s, cfg.chainOf(p.target), server, proposals, c)
    ensures var s' := Step(cfg, Step(cfg, s, BeginPropose(c, p, true)), ReadElements(c, true));
            && s'.servers == s.servers && s'.proposals == proposals && s'.locks == s.locks
            && c in s'.callers
            && s'.callers[c] == ElementsRead(p, HeadOf(server.commits), ExistingAt(server.commits, p.prefix))
  {
    hide LockKey, FindCommit, Managed;
    if server.commits != [] { HeadIsFound(server.commits, |server.commits| - 1); }
  }

  // ---------------------------------------------------------------- what the answers mean

  /** What a lone commit answers, each answer exactly when it is due. */
  lemma AnswersExactly(server: State, proposals: map<string, Stored>, enforces: bool, id: string,
                       expected: Option<string>, c: nat)
    ensures var o := CommitAlone(server, proposals, enforces, id, expected, c).2;
            var head := HeadOf(server.commits);
            && (o == Failed(UnknownChange(id)) <==> id !in proposals)
            && (forall b :: o == Failed(ProposalMismatch(expected, b))
                  <==> id in proposals && b == proposals[id].proposal.base != expected)
            && (forall h :: o == Failed(StaleBase(expected, h))
                  <==> id in proposals && expected == proposals[id].proposal.base && h == head
                       && (server.conflictOnce || h != expected))
            && (forall n :: o == Committed(id, expected, n)
                  <==> id in proposals && expected == proposals[id].proposal.base == head && !server.conflictOnce
                       && n == CommitId(|server.commits| + 1))
            && (o.Committed? || (o.Failed? && !o.error.Backend?))
  {
    hide ApplyAll, CommitId;
  }

  /** One revision more, with these changes applied to the elements at the head. */
  ghost predicate OneMore(cs: seq<Revision>, next: nat, cs': seq<Revision>, changes: seq<DataVersion>) {
    && |cs'| == |cs| + 1 && cs <= cs'
    && HeadOf(cs') == Some(CommitId(|cs'|)) && Tip(cs') == ApplyAll(Tip(cs), next, changes).0
  }

  /** A success adds the one revision it reports and uses up its proposal; a failure changes neither the
      chain nor the proposals. Either way a repeated call does not succeed a second time. */
  lemma CommitEffect(server: State, proposals: map<string, Stored>, enforces: bool, id: string,
                     expected: Option<string>, c: nat, d: nat)
    ensures var (server', proposals', o) := CommitAlone(server, proposals, enforces, id, expected, c);
            && (forall j :: j in proposals' <==> j in proposals && !(o.Committed? && j == id))
            && (forall j :: j in proposals' ==> proposals'[j] == proposals[j])
            && (if o.Committed?
                then OneMore(server.commits, server.nextElement, server'.commits, proposals[id].changes)
                     && HeadOf(server'.commits) == Some(o.commitId)
                     && CommitAlone(server', proposals', enforces, id, expected, d).2 == Failed(UnknownChange(id))
                else server'.commits == server.commits)
  {
    hide ApplyAll, CommitId;
  }

  /** Every commit of the chain has its own number. */
  ghost predicate Numbered(cs: seq<Revision>) {
    forall k :: 0 <= k < |cs| ==> cs[k].id == CommitId(k + 1)
  }

  lemma OneKept(proposals: map<string, Stored>, stored: Stored)
    ensures KeptAs(proposals, proposals[stored.proposal.changeId := stored], stored.proposal, stored.changes)
  {
  }

  lemma HeadElements(cs: seq<Revision>, prefix: string)
    requires Numbered(cs)
    ensures ExistingAt(cs, prefix) == Managed(Tip(cs), prefix)
  {
    hide Managed, CommitId;
    if cs == [] {
      NothingManaged(prefix);
    } else {
      HeadIsFound(cs, |cs| - 1);
      FirstFound(cs, cs[|cs| - 1].id);
      var k :| 0 <= k < |cs| && cs[k] == FindCommit(cs, cs[|cs| - 1].id).value;
      CommitIdInjective(k + 1, |cs|);
    }
  }

  lemma FirstFound(cs: seq<Revision>, id: string)
    requires FindCommit(cs, id).Some?
    ensures exists k :: 0 <= k < |cs| && cs[k] == FindCommit(cs, id).value && cs[k].id == id
  {
    if cs[0].id != id {
      FirstFound(cs[1..], id);
      var k :| 0 <= k < |cs| - 1 && cs[1..][k] == FindCommit(cs[1..], id).value && cs[1..][k].id == id;
      assert cs[k + 1] == cs[1..][k];
    }
  }

  lemma NothingManaged(prefix: string)
    ensures Managed(map[], prefix) == []
  {
  }

  /** Proposing, committing on the proposal's base, and proposing the same again, with nobody else about:
      the commit succeeds, and the second proposal finds no changes, on the head just written, exactly
      when the desired set suits what was there. */
  lemma ProposeCommitPropose(server: State, proposals: map<string, Stored>, enforces: bool,
                             changeId: (Target, Option<string>, seq<DataVersion>) -> string, p: Plan, c: nat)
    requires Numbered(server.commits) && !server.conflictOnce
    requires IdsIssued(Tip(server.commits), server.nextElement) && AllKeepStrings(Tip(server.commits), p.prefix)
             && StringIdentifiers(p.desired)
    requires ProposeAlone(server, proposals, changeId, p).1.Proposed?
    ensures var (proposals1, o1) := ProposeAlone(server, proposals, changeId, p);
            var (server2, proposals2, o2) :=
              CommitAlone(server, proposals1, enforces, o1.proposal.changeId, o1.proposal.base, c);
            var o3 := ProposeAlone(server2, proposals2, changeId, p).1;
            && o1.proposal.base == HeadOf(server.commits) && o2.Committed? && o2.base == o1.proposal.base
            && (o3 == Failed(NoChanges(Some(o2.commitId))) <==> SuitsIn(Tip(server.commits), p.prefix, p.desired))
  {
    var (proposals1, o1) := ProposeAlone(server, proposals, changeId, p);
    var id := o1.proposal.changeId;
    var (server2, proposals2, o2) := CommitAlone(server, proposals1, enforces, id, o1.proposal.base, c);
    ProposeEffect(server, proposals, changeId, p);
    hide ProposeAlone, CommitAlone, Diff, Managed, AllKeepStrings, StringIdentifiers, IdsIssued, SuitsIn, ExistingAt,
         Numbered, HeadOf, CommitId, ApplyAll;
    SucceedsExactly(server, proposals1, enforces, id, o1.proposal.base, c);
    AnswersExactly(server, proposals1, enforces, id, o1.proposal.base, c);
    CommitEffect(server, proposals1, enforces, id, o1.proposal.base, c, c);
    NumberedMore(server, proposals1, enforces, id, o1.proposal.base, c);
    SecondDiffEmptyExactly(Tip(server.commits), server.nextElement, p.prefix, p.desired, proposals1[id].changes);
    ProposeEffect(server2, proposals2, changeId, p);
  }

  lemma NumberedMore(server: State, proposals: map<string, Stored>, enforces: bool, id: string,
                     expected: Option<string>, c: nat)
    requires Numbered(server.commits)
    ensures Numbered(CommitAlone(server, proposals, enforces, id, expected, c).0.commits)
  {
    hide ApplyAll, CommitId;
  }

  ghost predicate SameOthers(proposals: map<string, Stored>, proposals': map<string, Stored>, id: string) {
    forall j :: j != id ==> (j in proposals' <==> j in proposals) && (j in proposals ==> proposals'[j] == proposals[j])
  }

  ghost predicate KeptAs(proposals: map<string, Stored>, proposals': map<string, Stored>, kept: ProposedChange,
                         changes: seq<DataVersion>) {
    && kept.changeId in proposals' && proposals'[kept.changeId].proposal == kept
    && proposals'[kept.changeId].changes == changes && SameOthers(proposals, proposals', kept.changeId)
  }

  /** What a lone propose does: it keeps a proposal exactly when there is something to change, the changes
      being the diff of the desired set with what is at the head, and leaves every other proposal alone. */
  lemma ProposeEffect(server: State, proposals: map<string, Stored>,
                      changeId: (Target, Option<string>, seq<DataVersion>) -> string, p: Plan)
    requires Numbered(server.commits)
    ensures var (proposals', o) := ProposeAlone(server, proposals, changeId, p);
            var head := HeadOf(server.commits);
            match Diff(Managed(Tip(server.commits), p.prefix), p.desired)
            case Err(ids) => o == Failed(Sync(ids)) && proposals' == proposals
            case Ok(changes) =>
              if changes == [] then o == Failed(NoChanges(head)) && proposals' == proposals
              else o == Proposed(ProposedChange(changeId(p.target, head, changes), p.target, head))
                   && KeptAs(proposals, proposals', o.proposal, changes)
  {
    hide Diff, Managed, ExistingAt, Numbered, HeadOf, Tip, KeptAs;
    HeadElements(server.commits, p.prefix);
    match Diff(Managed(Tip(server.commits), p.prefix), p.desired)
    case Err(ids) =>
    case Ok(changes) =>
      if changes != [] {
        var head := HeadOf(server.commits);
        var proposal := ProposedChange(changeId(p.target, head, changes), p.target, head);
        OneKept(proposals, Stored(proposal, changes, p.prefix, p.desired));
      }
  }

  ghost predicate At(s: System, c: nat, pc: Pc) {
    c in s.callers && s.callers[c] == pc
  }

  /** Two callers that both looked up one proposal: if the first to take the lock commits it, the second
      is told that the change is unknown, and writes nothing. */
  lemma LoserIsTold(cfg: Config, s: System, x: ChainId, c: nat, d: nat, op: Op)
    requires c != d && c in s.callers && d in s.callers && s.callers[c] == s.callers[d] == Locking(op)
    requires Unlocked(cfg, s, x) && cfg.chainOf(op.Target()) == x
    requires op.id in s.proposals && s.proposals[op.id] == op.stored
    requires op.expected == op.stored.proposal.base == HeadOf(Chain(s, x)) && !ServerOf(s, x).conflictOnce
    ensures var (a, b) := (CommitSteps(c, op.id, op.expected)[1..], CommitSteps(d, op.id, op.expected)[1..]);
            var s1 := Run(cfg, s, a);
            var s2 := Run(cfg, s1, b);
            && At(s2, c, Done(Committed(op.id, op.expected, CommitId(|Chain(s, x)| + 1))))
            && At(s2, d, Done(Failed(UnknownChange(op.id))))
            && |Chain(s1, x)| == |Chain(s, x)| + 1 && s2.servers == s1.servers
  {
    var (a, b) := (CommitSteps(c, op.id, op.expected)[1..], CommitSteps(d, op.id, op.expected)[1..]);
    hide LockKey, Step, Run, HeadOf, CommitId, Unlocked;
    FirstCommits(cfg, s, x, c, d, op);
    UnknownSteps(cfg, Run(cfg, s, a), x, d, op);
    OtherCaller(cfg, Run(cfg, s, a), d, c, b);
  }

  lemma FirstCommits(cfg: Config, s: System, x: ChainId, c: nat, d: nat, op: Op)
    requires c != d && At(s, c, Locking(op)) && At(s, d, Locking(op))
    requires Unlocked(cfg, s, x) && cfg.chainOf(op.Target()) == x
    requires op.id in s.proposals && s.proposals[op.id] == op.stored
    requires op.expected == op.stored.proposal.base == HeadOf(Chain(s, x)) && !ServerOf(s, x).conflictOnce
    ensures var s1 := Run(cfg, s, CommitSteps(c, op.id, op.expected)[1..]);
            && At(s1, c, Done(Committed(op.id, op.expected, CommitId(|Chain(s, x)| + 1)))) && At(s1, d, Locking(op))
            && Unlocked(cfg, s1, x) && op.id !in s1.proposals && |Chain(s1, x)| == |Chain(s, x)| + 1
  {
    hide LockKey, CommitAlone, Step, Run, HeadOf, CommitId, Unlocked;
    AnswersExactly(ServerOf(s, x), s.proposals, cfg.enforces, op.id, op.expected, c);
    CommitEffect(ServerOf(s, x), s.proposals, cfg.enforces, op.id, op.expected, c, d);
    LockedRefines(cfg, s, x, c, op, CommitSteps(c, op.id, op.expected)[1..]);
    OtherCaller(cfg, s, c, d, CommitSteps(c, op.id, op.expected)[1..]);
  }

  /** The steps of one call leave every other caller where it is. */
  lemma {:induction false} OtherCaller(cfg: Config, s: System, c: nat, d: nat, a: seq<Action>)
    requires c != d && d in s.callers
    requires forall x :: x in a ==>
             x in [TakeLock(c), Recheck(c), ReadHead(c, true), Write(c, NoFault), ReadHeadAgain(c, true), Remove(c),
                   Unlock(c)]
    ensures d in Run(cfg, s, a).callers && Run(cfg, s, a).callers[d] == s.callers[d]
    decreases |a|
  {
    if a != [] {
      assert a[0] in a;
      OtherStep(cfg, s, c, d, a[0]);
      hide Step;
      OtherCaller(cfg, Step(cfg, s, a[0]), c, d, a[1..]);
    }
  }

  lemma OtherStep(cfg: Config, s: System, c: nat, d: nat, x: Action)
    requires c != d && d in s.callers
    requires x in [TakeLock(c), Recheck(c), ReadHead(c, true), Write(c, NoFault), ReadHeadAgain(c, true), Remove(c),
                   Unlock(c)]
    ensures d in Step(cfg, s, x).callers && Step(cfg, s, x).callers[d] == s.callers[d]
  {
    hide LockKey, Post, HeadOf;
  }

  /** A call past its lookup whose proposal is gone. */
  lemma UnknownSteps(cfg: Config, s: System, x: ChainId, d: nat, op: Op)
    requires d in s.callers && s.callers[d] == Locking(op) && Unlocked(cfg, s, x) && cfg.chainOf(op.Target()) == x
    requires op.id !in s.proposals
    ensures var s' := Run(cfg, s, CommitSteps(d, op.id, op.expected)[1..]);
            s'.servers == s.servers && d in s'.callers && s'.callers[d] == Done(Failed(UnknownChange(op.id)))
  {
    var b := CommitSteps(d, op.id, op.expected)[1..];
    var s2 := Step(cfg, s, b[0]);
    var s3 := Step(cfg, s2, b[1]);
    hide LockKey, Post, HeadOf;
    RunStep(cfg, s, b);
    RunStep(cfg, s2, b[1..]);
    assert b[1..][0] == b[1] && b[1..][1..] == b[2..];
    assert s3.servers == s.servers && s3.callers[d] == Returning(op, Failed(UnknownChange(op.id)));
    ReturningSteps(cfg, s3, d, b[2..]);
  }

  lemma ReturningSteps(cfg: Config, s: System, d: nat, b: seq<Action>)
    requires d in s.callers && s.callers[d].Returning?
    requires b == [ReadHead(d, true), Write(d, NoFault), ReadHeadAgain(d, true), Remove(d), Unlock(d)]
    ensures Run(cfg, s, b).servers == s.servers && d in Run(cfg, s, b).callers
            && Run(cfg, s, b).callers[d] == Done(s.callers[d].outcome)
  {
    hide LockKey, Post, HeadOf;
    assert Step(cfg, s, b[0]) == s && Step(cfg, s, b[1]) == s && Step(cfg, s, b[2]) == s && Step(cfg, s, b[3]) == s;
    RunStep(cfg, s, b);
    RunStep(cfg, s, b[1..]);
    RunStep(cfg, s, b[2..]);
    RunStep(cfg, s, b[3..]);
    assert b[1..][0] == b[1] && b[2..][0] == b[2] && b[3..][0] == b[3];
    assert b[1..][1..] == b[2..] && b[2..][1..] == b[3..] && b[3..][1..] == [Unlock(d)];
    RunStep(cfg, s, [Unlock(d)]);
    assert [Unlock(d)][1..] == [];
  }

  // ---------------------------------------------------------------- the service

  datatype Validation = Validation(changeId: string, current: bool, base: Option<string>, head: Option<string>)

  /** The stateful server keeps one chain, whatever project and branch it is asked for. */
  function OnlyChain(t: Target): ChainId {
    ""
  }

  class ChangeService {
    const backend: InMemoryServer
    const changeId: (Target, Option<string>, seq<DataVersion>) -> string
    var proposals: map<string, Stored>

    function Settings(): Config {
      Config(backend.enforcesPrevious, true, true, changeId, OnlyChain)
    }

    constructor (backend: InMemoryServer, changeId: (Target, Option<string>, seq<DataVersion>) -> string)
      ensures this.backend == backend && this.changeId == changeId && proposals == map[]
    {
      this.backend, this.changeId, proposals := backend, changeId, map[];
    }

    /** The elements `propose` keeps: those whose identifier has the prefix. */
    method Filter(all: seq<Element>, prefix: string) returns (existing: seq<Element>)
      ensures existing == Restrict(all, prefix)
    {
      existing := [];
      hide IsManaged;
      for k := 0 to |all|
        invariant existing == Restrict(all[..k], prefix)
      {
        assert all[..k + 1][..k] == all[..k];
        if IsManaged(all[k].fields, prefix) { existing := existing + [all[k]]; }
      }
      assert all[..|all|] == all;
    }

    /** The head, and the managed elements at it. */
    method Read(prefix: string) returns (head: Option<string>, existing: seq<Element>)
      ensures head == HeadOf(backend.state.commits) && existing == ExistingAt(backend.state.commits, prefix)
    {
      head := backend.Head();
      existing := [];
      if head.Some? {
        HeadIsFound(backend.state.commits, |backend.state.commits| - 1);
        hide FindCommit, ElementsOf, Restrict;
        var all := backend.ElementsAt(head.value);
        existing := Filter(all.value, prefix);
      }
    }

    /** `propose`, called by `c` while nobody else acts: the solo run of its steps. */
    method Propose(target: Target, prefix: string, desired: seq<DesiredElement>, ghost s: System, ghost c: nat)
      returns (o: Outcome)
      requires Shows(Settings(), s, "", backend.state, proposals, c)
      modifies this
      ensures backend.state == old(backend.state)
      ensures (proposals, o) == ProposeAlone(backend.state, old(proposals), changeId, Plan(target, prefix, desired))
      ensures Ended(Settings(), Run(Settings(), s, ProposeSteps(c, Plan(target, prefix, desired))), "", backend.state,
                    proposals, c, o)
    {
      ProposeRefines(Settings(), s, backend.state, proposals, c, Plan(target, prefix, desired));
      hide Run, Shows, Ended, ExistingAt, Diff;
      var head, existing := Read(prefix);
      var diff := DiffManaged(existing, desired);
      match diff
      case Err(ids) => return Failed(Sync(ids));
      case Ok(changes) =>
        if |changes| == 0 { return Failed(NoChanges(head)); }
        var id := changeId(target, head, changes);
        var proposal := ProposedChange(id, target, head);
        proposals := proposals[id := Stored(proposal, changes, prefix, desired)];
        return Proposed(proposal);
    }

    /** `validate`: whether a commit on the proposal's base would go through now, short of an
        injected conflict. */
    method Validate(id: string, ghost c: nat) returns (r: Result<Validation, ChangeError>)
      ensures r == if id !in proposals then Err(UnknownChange(id))
                   else Ok(Validation(id, HeadOf(backend.state.commits) == proposals[id].proposal.base,
                                      proposals[id].proposal.base, HeadOf(backend.state.commits)))
      ensures r.Ok? && !backend.state.conflictOnce ==>
                (r.value.current
                 <==> CommitAlone(backend.state, proposals, backend.enforcesPrevious, id, r.value.base, c).2.Committed?)
    {
      if id !in proposals { return Err(UnknownChange(id)); }
      var base := proposals[id].proposal.base;
      var current := backend.Head();
      SucceedsExactly(backend.state, proposals, backend.enforcesPrevious, id, base, c);
      hide CommitAlone, HeadOf;
      r := Ok(Validation(id, current == base, base, current));
    }

    /** `commit`, called by `c` while nobody else acts: the solo run of its steps. */
    method Commit(id: string, expected: Option<string>, ghost s: System, c: nat) returns (o: Outcome)
      requires Shows(Settings(), s, "", backend.state, proposals, c)
      modifies this, backend
      ensures (backend.state, proposals, o)
              == CommitAlone(old(backend.state), old(proposals), backend.enforcesPrevious, id, expected, c)
      ensures Ended(Settings(), Run(Settings(), s, CommitSteps(c, id, expected)), "", backend.state, proposals, c, o)
    {
      CommitRefines(Settings(), s, "", backend.state, proposals, c, id, expected);
      hide Run, Shows, Ended, Post;
      if id !in proposals { return Failed(UnknownChange(id)); }
      var stored := proposals[id];
      if expected != stored.proposal.base { return Failed(ProposalMismatch(expected, stored.proposal.base)); }
      var current := backend.Head();
      if current != expected { return Failed(StaleBase(expected, current)); }
      var r := backend.Commit(expected, stored.changes, Service(c));
      match r
      case Ok(commitId) =>
        proposals := proposals - {id};
        o := Committed(id, expected, commitId);
      case Err(Conflict) =>
        current := backend.Head();
        o := Failed(StaleBase(expected, current));
      case Err(e) => o := Failed(Backend(e));
    }
  }
}
