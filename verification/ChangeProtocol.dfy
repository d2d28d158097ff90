/** The commit protocol of `crates/kr0ki-core/src/change_service.rs` as interleaved atomic steps:
    any number of callers, and one commit chain for each branch the server keeps. Callers name a
    branch by its id, or name none and mean the default one, so one chain may have two names. */
module ChangeProtocol {
  import opened ModelServer
  import opened Reconcile
  import opened SyncEngine
  import opened Wrappers

  /** A branch as a caller names it. */
  datatype Target = Target(project: string, branch: Option<string>)

  type ChainId = string

  /** `lock_for`: the key of the branch lock. It is made from the name, not from the branch. */
  function LockKey(t: Target): string {
    t.project + [0 as char] + if t.branch.Some? then t.branch.value else ""
  }

  datatype ProposedChange = ProposedChange(changeId: string, target: Target, base: Option<string>)

  /** A stored proposal. The prefix and the desired set it came from are kept for reasoning. */
  datatype Stored = Stored(proposal: ProposedChange, changes: seq<DataVersion>, prefix: string,
                           desired: seq<DesiredElement>)

  datatype ChangeError =
    | StaleBase(expected: Option<string>, current: Option<string>)
    | ProposalMismatch(expected: Option<string>, base: Option<string>)
    | UnknownChange(id: string)
    | NoChanges(base: Option<string>)
    | Sync(duplicates: seq<string>)
    | Backend(error: BackendError)

  datatype Outcome =
    | Committed(changeId: string, base: Option<string>, commitId: string)
    | Proposed(proposal: ProposedChange)
    | Failed(error: ChangeError)

  /** A commit call past its lookup: the stored proposal it cloned. */
  datatype Op = Op(id: string, expected: Option<string>, stored: Stored) {
    function Target(): Target {
      stored.proposal.target
    }
  }

  datatype Plan = Plan(target: Target, prefix: string, desired: seq<DesiredElement>)

  /** Where a caller is. Each caller performs one operation. */
  datatype Pc =
    | Locking(op: Op)
    | Locked(op: Op)
    | Rechecked(op: Op)
    | HeadOk(op: Op)
    | Written(op: Op, commitId: string)
    | Conflicted(op: Op)
    | Returning(op: Op, outcome: Outcome)
    | HeadRead(plan: Plan, head: Option<string>)
    | ElementsRead(plan: Plan, head: Option<string>, existing: seq<Element>)
    | Done(outcome: Outcome)

  /** Whether the server checks `previousCommit`, whether there are writers beside the service, whether
      the server may still apply a write whose caller has given up on it, the hash behind change ids,
      and the chain that each name stands for. */
  datatype Config = Config(
    enforces: bool,
    outsiders: bool,
    late: bool,
    changeId: (Target, Option<string>, seq<DataVersion>) -> string,
    chainOf: Target -> ChainId)

  datatype System = System(
    servers: map<ChainId, State>,
    proposals: map<string, Stored>,
    locks: map<string, nat>,
    callers: map<nat, Pc>,
    flight: map<nat, Op>,
    issued: set<Stored>,
    grounded: bool)

  const Initial := System(map[], map[], map[], map[], map[], {}, true)

  function ServerOf(s: System, x: ChainId): State {
    if x in s.servers then s.servers[x] else Empty
  }

  function Chain(s: System, x: ChainId): seq<Revision> {
    ServerOf(s, x).commits
  }

  // ---------------------------------------------------------------- the steps

  /** What can go wrong with a write. In every case but the first its caller is told that the server is
      unavailable: the write has been applied, never will be, or is still under way. */
  datatype Fault = NoFault | ReplyLost | Unsent | Late

  datatype Action =
    | InjectConflict(chain: ChainId)
    | OutsideWrite(chain: ChainId, previous: Option<string>, changes: seq<DataVersion>)
    | BeginCommit(caller: nat, id: string, expected: Option<string>)
    | TakeLock(caller: nat)
    | Recheck(caller: nat)
    | ReadHead(caller: nat, ok: bool)
    | Write(caller: nat, fault: Fault)
    | Land(caller: nat)
    | ReadHeadAgain(caller: nat, ok: bool)
    | Remove(caller: nat)
    | Unlock(caller: nat)
    | BeginPropose(caller: nat, plan: Plan, ok: bool)
    | ReadElements(caller: nat, ok: bool)
    | Insert(caller: nat)

  const Unavailable := Failed(Backend(Other("unavailable")))

  function Move(s: System, c: nat, pc: Pc): System {
    s.(callers := s.callers[c := pc])
  }

  /** Updates of a changeset name existing elements only. */
  predicate Grounded(els: Elements, changes: seq<DataVersion>) {
    forall c :: c in changes && c.payload.Some? && c.identity.Some? ==> c.identity.value in els
  }

  function BeginCommitStep(s: System, c: nat, id: string, expected: Option<string>): System {
    if c in s.callers then s else Move(s, c, LookedUp(s, id, expected))
  }

  /** Where the lookup of a proposal takes a commit call. */
  function LookedUp(s: System, id: string, expected: Option<string>): Pc {
    if id !in s.proposals then Done(Failed(UnknownChange(id)))
    else if expected != s.proposals[id].proposal.base then
      Done(Failed(ProposalMismatch(expected, s.proposals[id].proposal.base)))
    else Locking(Op(id, expected, s.proposals[id]))
  }

  /** Where the reply to a posted commit takes its caller. */
  function AfterPost(op: Op, fault: Fault, r: Result<string, BackendError>): Pc {
    if fault == ReplyLost then Returning(op, Unavailable)
    else
      match r
      case Ok(commitId) => Written(op, commitId)
      case Err(Conflict) => Conflicted(op)
      case Err(e) => Returning(op, Failed(Backend(e)))
  }

  function WriteStep(cfg: Config, s: System, c: nat, op: Op, fault: Fault): System {
    if fault == Unsent then Move(s, c, Returning(op, Unavailable))
    else if fault == Late then
      if cfg.late then Move(s.(flight := s.flight[c := op]), c, Returning(op, Unavailable)) else s
    else
      var (server, r) :=
        Post(ServerOf(s, cfg.chainOf(op.Target())), cfg.enforces, op.expected, op.stored.changes, Service(c));
      Move(s.(servers := s.servers[cfg.chainOf(op.Target()) := server]), c, AfterPost(op, fault, r))
  }

  ghost function InsertStep(cfg: Config, s: System, c: nat, p: Plan, head: Option<string>,
                            existing: seq<Element>): System {
    match Diff(existing, p.desired)
    case Err(ids) => Move(s, c, Done(Failed(Sync(ids))))
    case Ok(changes) =>
      if changes == [] then Move(s, c, Done(Failed(NoChanges(head))))
      else
        var id := cfg.changeId(p.target, head, changes);
        var proposal := ProposedChange(id, p.target, head);
        var stored := Stored(proposal, changes, p.prefix, p.desired);
        Move(s.(proposals := s.proposals[id := stored], issued := s.issued + {stored}), c, Done(Proposed(proposal)))
  }

  ghost function OutsideStep(cfg: Config, s: System, x: ChainId, previous: Option<string>,
                             changes: seq<DataVersion>): System {
    if !cfg.outsiders then s
    else
      var server := ServerOf(s, x);
      s.(servers := s.servers[x := Post(server, cfg.enforces, previous, changes, Outside).0],
         grounded := s.grounded && Grounded(Tip(server.commits), changes))
  }

  function TakeLockStep(s: System, c: nat): System {
    if c in s.callers && s.callers[c].Locking? && LockKey(s.callers[c].op.Target()) !in s.locks then
      var op := s.callers[c].op;
      Move(s.(locks := s.locks[LockKey(op.Target()) := c]), c, Locked(op))
    else s
  }

  function RecheckStep(s: System, c: nat): System {
    if c in s.callers && s.callers[c].Locked? then
      var op := s.callers[c].op;
      Move(s, c, if op.id in s.proposals then Rechecked(op) else Returning(op, Failed(UnknownChange(op.id))))
    else s
  }

  function ReadHeadStep(cfg: Config, s: System, c: nat, ok: bool): System {
    if c in s.callers && s.callers[c].Rechecked? then
      var op := s.callers[c].op;
      var current := HeadOf(Chain(s, cfg.chainOf(op.Target())));
      Move(s, c, if !ok then Returning(op, Unavailable)
                 else if current != op.expected then Returning(op, Failed(StaleBase(op.expected, current)))
                 else HeadOk(op))
    else s
  }

  function ReadHeadAgainStep(cfg: Config, s: System, c: nat, ok: bool): System {
    if c in s.callers && s.callers[c].Conflicted? then
      var op := s.callers[c].op;
      Move(s, c,
           Returning(op, if ok then Failed(StaleBase(op.expected, HeadOf(Chain(s, cfg.chainOf(op.Target())))))
             else Unavailable))
    else s
  }

  function RemoveStep(s: System, c: nat): System {
    if c in s.callers && s.callers[c].Written? then
      var op := s.callers[c].op;
      Move(s.(proposals := s.proposals - {op.id}), c,
           Returning(op, Committed(op.id, op.expected, s.callers[c].commitId)))
    else s
  }

  function UnlockStep(s: System, c: nat): System {
    if c in s.callers && s.callers[c].Returning? then
      Move(s.(locks := s.locks - {LockKey(s.callers[c].op.Target())}), c, Done(s.callers[c].outcome))
    else s
  }

  function BeginProposeStep(cfg: Config, s: System, c: nat, p: Plan, ok: bool): System {
    if c in s.callers then s
    else Move(s, c, if ok then HeadRead(p, HeadOf(Chain(s, cfg.chainOf(p.target)))) else Done(Unavailable))
  }

  function ReadElementsStep(cfg: Config, s: System, c: nat, ok: bool): System {
    if c in s.callers && s.callers[c].HeadRead? then
      var p, head := s.callers[c].plan, s.callers[c].head;
      if head.None? then Move(s, c, ElementsRead(p, head, []))
      else
        var found := FindCommit(Chain(s, cfg.chainOf(p.target)), head.value);
        Move(s, c, if ok && found.Some? then ElementsRead(p, head, Managed(found.value.elements, p.prefix))
                   else Done(Unavailable))
    else s
  }

  ghost function InsertAt(cfg: Config, s: System, c: nat): System {
    if c in s.callers && s.callers[c].ElementsRead? then
      InsertStep(cfg, s, c, s.callers[c].plan, s.callers[c].head, s.callers[c].existing)
    else s
  }

  function WriteAt(cfg: Config, s: System, c: nat, fault: Fault): System {
    if c in s.callers && s.callers[c].HeadOk? then WriteStep(cfg, s, c, s.callers[c].op, fault) else s
  }

  /** A write under way reaches the server; nobody hears of its outcome. */
  function LandStep(cfg: Config, s: System, c: nat): System {
    if c in s.flight then
      var op := s.flight[c];
      var x := cfg.chainOf(op.Target());
      var server := Post(ServerOf(s, x), cfg.enforces, op.expected, op.stored.changes, Service(c)).0;
      s.(servers := s.servers[x := server], flight := s.flight - {c})
    else s
  }

  function InjectStep(s: System, x: ChainId): System {
    s.(servers := s.servers[x := ServerOf(s, x).(conflictOnce := true)])
  }

  /** One atomic step; an action that is not enabled changes nothing. */
  ghost function Step(cfg: Config, s: System, a: Action): System {
    match a
    case InjectConflict(x) => InjectStep(s, x)
    case OutsideWrite(x, previous, changes) => OutsideStep(cfg, s, x, previous, changes)
    case BeginCommit(c, id, expected) => BeginCommitStep(s, c, id, expected)
    case TakeLock(c) => TakeLockStep(s, c)
    case Recheck(c) => RecheckStep(s, c)
    case ReadHead(c, ok) => ReadHeadStep(cfg, s, c, ok)
    case Write(c, fault) => WriteAt(cfg, s, c, fault)
    case Land(c) => LandStep(cfg, s, c)
    case ReadHeadAgain(c, ok) => ReadHeadAgainStep(cfg, s, c, ok)
    case Remove(c) => RemoveStep(s, c)
    case Unlock(c) => UnlockStep(s, c)
    case BeginPropose(c, p, ok) => BeginProposeStep(cfg, s, c, p, ok)
    case ReadElements(c, ok) => ReadElementsStep(cfg, s, c, ok)
    case Insert(c) => InsertAt(cfg, s, c)
  }

  ghost function Run(cfg: Config, s: System, actions: seq<Action>): System
    decreases |actions|
  {
    if actions == [] then s else Run(cfg, Step(cfg, s, actions[0]), actions[1..])
  }

  /** All names of a chain share one lock. */
  ghost predicate OneLockPerChain(cfg: Config) {
    forall t, u :: cfg.chainOf(t) == cfg.chainOf(u) ==> LockKey(t) == LockKey(u)
  }

  /** Whoever holds the lock is the only one whose writes reach its chain. */
  ghost predicate Exclusive(cfg: Config) {
    !cfg.outsiders && !cfg.late && OneLockPerChain(cfg)
  }

  /** The server checks `previousCommit`, or the branch locks keep all writers apart. */
  ghost predicate Guarded(cfg: Config) {
    cfg.enforces || Exclusive(cfg)
  }

  // ---------------------------------------------------------------- the invariant

  /** Commit `k` is numbered, carries its changes, and extends what was there. */
  ghost predicate RevisionOk(cs: seq<Revision>, k: nat)
    requires k < |cs|
  {
    && cs[k].id == CommitId(k + 1)
    && cs[k].elements == ApplyAll(Tip(cs[..k]), cs[k].counter, cs[k].changes).0
  }

  /** Revision `k` of the chain is what `stored` proposed, on the base it was computed against. */
  ghost predicate Realizes(cs: seq<Revision>, k: nat, stored: Stored)
    requires k < |cs|
  {
    HeadOf(cs[..k]) == stored.proposal.base && cs[k].changes == stored.changes
  }

  predicate MayHaveWritten(pc: Pc) {
    match pc
    case Written(_, _) => true
    case Returning(_, o) => o.Committed? || (o.Failed? && o.error.Backend?)
    case Done(o) => o.Committed? || (o.Failed? && o.error.Backend?)
    case _ => false
  }

  ghost predicate Backed(cfg: Config, s: System, x: ChainId, k: nat)
    requires k < |Chain(s, x)|
  {
    exists stored :: stored in s.issued && cfg.chainOf(stored.proposal.target) == x && Realizes(Chain(s, x), k, stored)
  }

  ghost predicate CommitOk(cfg: Config, s: System, x: ChainId, k: nat)
    requires k < |Chain(s, x)|
  {
    var r := Chain(s, x)[k];
    && RevisionOk(Chain(s, x), k)
    && (r.author.Service? ==>
          Backed(cfg, s, x, k) && r.author.caller in s.callers && MayHaveWritten(s.callers[r.author.caller]))
  }

  /** The element counter never goes back, and bounds every id in use. */
  ghost predicate CountersOk(cs: seq<Revision>, next: nat) {
    && IdsIssued(Tip(cs), next)
    && (forall k :: 0 <= k < |cs| ==> IdsIssued(Tip(cs[..k]), cs[k].counter))
    && (forall k :: 0 <= k < |cs| ==> cs[k].counter <= next)
    && (forall j, k :: 0 <= j <= k < |cs| ==> cs[j].counter <= cs[k].counter)
  }

  /** The commit a successful call reports. */
  ghost predicate CommittedAt(cfg: Config, s: System, c: nat, x: ChainId, k: nat, stored: Stored, id: string,
                              base: Option<string>, commitId: string) {
    && stored in s.issued && cfg.chainOf(stored.proposal.target) == x && stored.proposal.changeId == id
    && stored.proposal.base == base
    && k < |Chain(s, x)| && Chain(s, x)[k].id == commitId && Chain(s, x)[k].author == Service(c)
    && Realizes(Chain(s, x), k, stored)
  }

  ghost predicate HasCommitted(cfg: Config, s: System, c: nat, id: string, base: Option<string>, commitId: string) {
    exists x, k: nat, stored :: CommittedAt(cfg, s, c, x, k, stored, id, base, commitId)
  }

  ghost predicate OutcomeOk(cfg: Config, s: System, c: nat, o: Outcome) {
    o.Committed? ==> HasCommitted(cfg, s, c, o.changeId, o.base, o.commitId)
  }

  ghost predicate OpOk(s: System, op: Op) {
    op.stored in s.issued && op.stored.proposal.changeId == op.id && op.expected == op.stored.proposal.base
  }

  ghost predicate WasHead(cs: seq<Revision>, n: nat, head: Option<string>) {
    n <= |cs| && HeadOf(cs[..n]) == head
  }

  ghost predicate ReadAt(cs: seq<Revision>, n: nat, head: Option<string>, p: Plan, existing: seq<Element>) {
    WasHead(cs, n, head) && existing == Managed(Tip(cs[..n]), p.prefix)
  }

  ghost predicate Holds(s: System, op: Op, c: nat) {
    LockKey(op.Target()) in s.locks && s.locks[LockKey(op.Target())] == c
  }

  ghost predicate CallerOk(cfg: Config, s: System, c: nat, pc: Pc) {
    match pc
    case Locking(op) => OpOk(s, op)
    case Locked(op) => OpOk(s, op) && Holds(s, op, c)
    case Rechecked(op) => OpOk(s, op) && Holds(s, op, c)
    case HeadOk(op) =>
      OpOk(s, op) && Holds(s, op, c) && (Exclusive(cfg) ==> HeadOf(Chain(s, cfg.chainOf(op.Target()))) == op.expected)
    case Written(op, commitId) => OpOk(s, op) && Holds(s, op, c)
      && HasCommitted(cfg, s, c, op.id, op.expected, commitId)
    case Conflicted(op) => OpOk(s, op) && Holds(s, op, c)
    case Returning(op, o) => OpOk(s, op) && Holds(s, op, c) && OutcomeOk(cfg, s, c, o)
    case HeadRead(p, head) => exists n: nat :: WasHead(Chain(s, cfg.chainOf(p.target)), n, head)
    case ElementsRead(p, head, existing) => exists n: nat
      :: ReadAt(Chain(s, cfg.chainOf(p.target)), n, head, p, existing)
    case Done(o) => OutcomeOk(cfg, s, c, o)
  }

  /** A proposal is the managed diff against the elements at its base. */
  ghost predicate ComputedAt(cs: seq<Revision>, n: nat, stored: Stored) {
    && WasHead(cs, n, stored.proposal.base)
    && Diff(Managed(Tip(cs[..n]), stored.prefix), stored.desired) == Ok(stored.changes)
  }

  ghost predicate IssuedOk(cfg: Config, s: System, stored: Stored) {
    exists n: nat :: ComputedAt(Chain(s, cfg.chainOf(stored.proposal.target)), n, stored)
  }

  ghost predicate ProposalsOk(s: System) {
    forall id :: id in s.proposals ==> s.proposals[id] in s.issued && s.proposals[id].proposal.changeId == id
  }

  predicate SameCaller(a: Revision, b: Revision) {
    a.author.Service? && a.author == b.author
  }

  /** No caller has two commits, on any chain. */
  ghost predicate OneCommitEach(s: System) {
    forall x, u, i, j :: 0 <= i < |Chain(s, x)| && 0 <= j < |Chain(s, u)| && SameCaller(Chain(s, x)[i], Chain(s, u)[j])
      ==> x == u && i == j
  }

  ghost predicate CommitsOk(cfg: Config, s: System) {
    forall x, k: nat :: k < |Chain(s, x)| ==> CommitOk(cfg, s, x, k)
  }

  ghost predicate CallersOk(cfg: Config, s: System) {
    forall c :: c in s.callers ==> CallerOk(cfg, s, c, s.callers[c])
  }

  ghost predicate AllIssuedOk(cfg: Config, s: System) {
    forall stored :: stored in s.issued ==> IssuedOk(cfg, s, stored)
  }

  ghost predicate AllCountersOk(s: System) {
    s.grounded ==> forall x :: CountersOk(Chain(s, x), ServerOf(s, x).nextElement)
  }

  /** A write under way is a proposed change; its caller has been told that the server is unavailable,
      and has no commit yet. */
  ghost predicate InFlightOk(s: System, c: nat, op: Op) {
    OpOk(s, op) && c in s.callers && MayHaveWritten(s.callers[c]) && NoCommitBy(s, c)
  }

  ghost predicate NoCommitBy(s: System, c: nat) {
    forall x, k :: 0 <= k < |Chain(s, x)| ==> Chain(s, x)[k].author != Service(c)
  }

  ghost predicate FlightOk(cfg: Config, s: System) {
    forall c :: c in s.flight ==> cfg.late && InFlightOk(s, c, s.flight[c])
  }

  ghost predicate Inv(cfg: Config, s: System) {
    CommitsOk(cfg, s) && CallersOk(cfg, s) && AllIssuedOk(cfg, s) && ProposalsOk(s) && OneCommitEach(s)
      && AllCountersOk(s) && FlightOk(cfg, s)
  }

  lemma InitialInv(cfg: Config)
    ensures Inv(cfg, Initial)
  {
  }

  // ---------------------------------------------------------------- what later steps keep

  /** Every chain of `s` is a prefix of the one in `s'`, and proposals stay issued. */
  ghost predicate Extends(s: System, s': System) {
    s.issued <= s'.issued && forall x :: Chain(s, x) <= Chain(s', x)
  }

  lemma PrefixSlices(cs: seq<Revision>, ds: seq<Revision>, n: nat)
    requires cs <= ds && n <= |cs|
    ensures cs[..n] == ds[..n]
  {
  }

  lemma KeepsCommitted(cfg: Config, s: System, s': System, c: nat, id: string, base: Option<string>, commitId: string)
    requires Extends(s, s') && HasCommitted(cfg, s, c, id, base, commitId)
    ensures HasCommitted(cfg, s', c, id, base, commitId)
  {
    var x, k: nat, stored :| CommittedAt(cfg, s, c, x, k, stored, id, base, commitId);
    PrefixSlices(Chain(s, x), Chain(s', x), k);
    assert CommittedAt(cfg, s', c, x, k, stored, id, base, commitId);
  }

  lemma KeepsOutcome(cfg: Config, s: System, s': System, c: nat, o: Outcome)
    requires Extends(s, s') && OutcomeOk(cfg, s, c, o)
    ensures OutcomeOk(cfg, s', c, o)
  {
    if o.Committed? { KeepsCommitted(cfg, s, s', c, o.changeId, o.base, o.commitId); }
  }

  predicate Holding(pc: Pc) {
    pc.Locked? || pc.Rechecked? || pc.HeadOk? || pc.Written? || pc.Conflicted? || pc.Returning?
  }

  lemma KeepsCaller(cfg: Config, s: System, s': System, c: nat, pc: Pc)
    requires Extends(s, s') && CallerOk(cfg, s, c, pc)
    requires Holding(pc) ==> Holds(s', pc.op, c)
    requires pc.HeadOk? && Exclusive(cfg) ==>
             Chain(s', cfg.chainOf(pc.op.Target())) == Chain(s, cfg.chainOf(pc.op.Target()))
    ensures CallerOk(cfg, s', c, pc)
  {
    hide LockKey, Managed, HasCommitted, OutcomeOk;
    match pc
    case Written(op, commitId) => KeepsCommitted(cfg, s, s', c, op.id, op.expected, commitId);
    case Returning(_, o) => KeepsOutcome(cfg, s, s', c, o);
    case Done(o) => KeepsOutcome(cfg, s, s', c, o);
    case HeadRead(p, head) =>
      var n: nat :| WasHead(Chain(s, cfg.chainOf(p.target)), n, head);
      PrefixSlices(Chain(s, cfg.chainOf(p.target)), Chain(s', cfg.chainOf(p.target)), n);
      assert WasHead(Chain(s', cfg.chainOf(p.target)), n, head);
    case ElementsRead(p, head, existing) =>
      var n: nat :| ReadAt(Chain(s, cfg.chainOf(p.target)), n, head, p, existing);
      PrefixSlices(Chain(s, cfg.chainOf(p.target)), Chain(s', cfg.chainOf(p.target)), n);
      assert ReadAt(Chain(s', cfg.chainOf(p.target)), n, head, p, existing);
    case _ =>
  }

  lemma KeepsIssued(cfg: Config, s: System, s': System, stored: Stored)
    requires Extends(s, s') && IssuedOk(cfg, s, stored)
    ensures IssuedOk(cfg, s', stored)
  {
    hide Diff, Managed;
    var n: nat :| ComputedAt(Chain(s, cfg.chainOf(stored.proposal.target)), n, stored);
    PrefixSlices(Chain(s, cfg.chainOf(stored.proposal.target)), Chain(s', cfg.chainOf(stored.proposal.target)), n);
    assert ComputedAt(Chain(s', cfg.chainOf(stored.proposal.target)), n, stored);
  }

  lemma KeepsCommit(cfg: Config, s: System, s': System, x: ChainId, k: nat)
    requires Extends(s, s') && k < |Chain(s, x)| && CommitOk(cfg, s, x, k)
    requires var a := Chain(s, x)[k].author;
             a.Service? ==> a.caller in s'.callers && MayHaveWritten(s'.callers[a.caller])
    ensures k < |Chain(s', x)| && CommitOk(cfg, s', x, k)
  {
    hide ApplyAll, MayHaveWritten;
    PrefixSlices(Chain(s, x), Chain(s', x), k);
    if Chain(s, x)[k].author.Service? {
      var stored :| stored in s.issued && cfg.chainOf(stored.proposal.target) == x && Realizes(Chain(s, x), k, stored);
      assert Realizes(Chain(s', x), k, stored);
    }
  }

  // ---------------------------------------------------------------- steps that write nothing

  /** What a step of caller `c` to `pc` must respect when it leaves every chain as it is. */
  ghost predicate LocalMove(cfg: Config, s: System, s': System, c: nat, pc: Pc) {
    && s'.servers == s.servers && s'.flight == s.flight && s'.grounded == s.grounded && s.issued <= s'.issued
    && s'.callers == s.callers[c := pc]
    && CallerOk(cfg, s', c, pc)
    && (forall d :: d in s.callers && d != c && Holding(s.callers[d]) ==> Holds(s', s.callers[d].op, d))
    && (c in s.callers && MayHaveWritten(s.callers[c]) ==> MayHaveWritten(pc))
    && ProposalsOk(s')
    && (forall stored :: stored in s'.issued && stored !in s.issued ==> IssuedOk(cfg, s', stored))
  }

  lemma LocalMoveKeeps(cfg: Config, s: System, s': System, c: nat, pc: Pc)
    requires Inv(cfg, s) && LocalMove(cfg, s, s', c, pc)
    ensures Inv(cfg, s')
  {
    hide CallerOk, CommitOk, IssuedOk, MayHaveWritten, CountersOk, Holds, SameCaller, NoCommitBy, OpOk;
    assert Extends(s, s');
    forall d | d in s'.flight ensures InFlightOk(s', d, s'.flight[d]) {
      OpKept(s, s', s.flight[d]);
      NoCommitKept(s, s', d);
    }
    forall d | d in s'.callers ensures CallerOk(cfg, s', d, s'.callers[d]) {
      if d != c { KeepsCaller(cfg, s, s', d, s.callers[d]); }
    }
    forall x, k: nat | k < |Chain(s', x)| ensures CommitOk(cfg, s', x, k) {
      assert CommitOk(cfg, s, x, k);
      AuthorWrote(cfg, s, x, k);
      KeepsCommit(cfg, s, s', x, k);
    }
    forall stored | stored in s'.issued ensures IssuedOk(cfg, s', stored) {
      if stored in s.issued { KeepsIssued(cfg, s, s', stored); }
    }
  }

  lemma NoCommitKept(s: System, s': System, c: nat)
    requires NoCommitBy(s, c) && s'.servers == s.servers
    ensures NoCommitBy(s', c)
  {
    forall x ensures Chain(s', x) == Chain(s, x) {}
  }

  lemma AuthorWrote(cfg: Config, s: System, x: ChainId, k: nat)
    requires k < |Chain(s, x)| && CommitOk(cfg, s, x, k)
    ensures var a := Chain(s, x)[k].author; a.Service? ==> a.caller in s.callers && MayHaveWritten(s.callers[a.caller])
  {
    hide MayHaveWritten;
  }

  lemma HolderAlone(cfg: Config, s: System, c: nat, d: nat)
    requires CallersOk(cfg, s) && c in s.callers && d in s.callers && Holding(s.callers[c]) && Holding(s.callers[d])
    ensures Holds(s, s.callers[c].op, c) && Holds(s, s.callers[d].op, d)
    ensures LockKey(s.callers[c].op.Target()) == LockKey(s.callers[d].op.Target()) ==> c == d
  {
    hide LockKey, OpOk, OutcomeOk, HasCommitted;
    assert CallerOk(cfg, s, c, s.callers[c]) && CallerOk(cfg, s, d, s.callers[d]);
  }

  lemma CallerFact(cfg: Config, s: System, c: nat)
    requires CallersOk(cfg, s) && c in s.callers
    ensures CallerOk(cfg, s, c, s.callers[c])
  {
  }

  /** A step that touches no chain, no lock and no proposal. */
  lemma QuietMoveKeeps(cfg: Config, s: System, c: nat, pc: Pc)
    requires Inv(cfg, s) && CallerOk(cfg, Move(s, c, pc), c, pc)
    requires c in s.callers && MayHaveWritten(s.callers[c]) ==> MayHaveWritten(pc)
    ensures Inv(cfg, Move(s, c, pc))
  {
    hide CommitsOk, CallersOk, AllIssuedOk, OneCommitEach, AllCountersOk, CallerOk, MayHaveWritten, Holds;
    OthersHold(cfg, s, Move(s, c, pc), c);
    LocalMoveKeeps(cfg, s, Move(s, c, pc), c, pc);
  }

  /** Locks left alone stay with their holders. */
  lemma OthersHold(cfg: Config, s: System, s': System, c: nat)
    requires CallersOk(cfg, s) && s'.locks == s.locks
    ensures forall d :: d in s.callers && d != c && Holding(s.callers[d]) ==> Holds(s', s.callers[d].op, d)
  {
    forall d | d in s.callers && d != c && Holding(s.callers[d]) ensures Holds(s', s.callers[d].op, d) {
      HolderAlone(cfg, s, d, d);
    }
    hide CallersOk, LockKey;
  }

  lemma BeginCommitKeeps(cfg: Config, s: System, c: nat, id: string, expected: Option<string>)
    requires Inv(cfg, s)
    ensures Inv(cfg, BeginCommitStep(s, c, id, expected))
  {
    hide *;
    InvGives(cfg, s);
    BegunOk(cfg, s, c, id, expected);
    if c !in s.callers { QuietMoveKeeps(cfg, s, c, BeginCommitStep(s, c, id, expected).callers[c]); }
  }

  lemma InvGives(cfg: Config, s: System)
    requires Inv(cfg, s)
    ensures CommitsOk(cfg, s) && CallersOk(cfg, s) && AllIssuedOk(cfg, s) && ProposalsOk(s) && OneCommitEach(s)
            && AllCountersOk(s) && FlightOk(cfg, s)
  {
  }

  lemma BegunOk(cfg: Config, s: System, c: nat, id: string, expected: Option<string>)
    requires ProposalsOk(s)
    ensures c in BeginCommitStep(s, c, id, expected).callers
    ensures c in s.callers ==> BeginCommitStep(s, c, id, expected) == s
    ensures c !in s.callers ==>
              var pc := BeginCommitStep(s, c, id, expected).callers[c];
              BeginCommitStep(s, c, id, expected) == Move(s, c, pc) && CallerOk(cfg, Move(s, c, pc), c, pc)
  {
    var pc := LookedUp(s, id, expected);
    LookedUpOk(cfg, s, Move(s, c, pc), c, id, expected);
    hide CallerOk, LookedUp;
  }

  lemma LookedUpOk(cfg: Config, s: System, s': System, c: nat, id: string, expected: Option<string>)
    requires ProposalsOk(s) && s'.issued == s.issued
    ensures CallerOk(cfg, s', c, LookedUp(s, id, expected))
  {
    hide CallerOk;
    if id in s.proposals && expected == s.proposals[id].proposal.base {
      LockingOk(cfg, s', c, Op(id, expected, s.proposals[id]));
    } else {
      FailedOk(cfg, s', c, LookedUp(s, id, expected).outcome);
    }
  }

  lemma LockingOk(cfg: Config, s: System, c: nat, op: Op)
    requires OpOk(s, op)
    ensures CallerOk(cfg, s, c, Locking(op))
  {
  }

  lemma FailedOk(cfg: Config, s: System, c: nat, o: Outcome)
    requires o.Failed?
    ensures CallerOk(cfg, s, c, Done(o))
  {
  }

  lemma TakeLockKeeps(cfg: Config, s: System, c: nat)
    requires Inv(cfg, s)
    ensures Inv(cfg, TakeLockStep(s, c))
  {
    hide CommitsOk, CallersOk, AllIssuedOk, OneCommitEach, AllCountersOk, LockKey, OpOk;
    if c in s.callers && s.callers[c].Locking? && LockKey(s.callers[c].op.Target()) !in s.locks {
      var op := s.callers[c].op;
      var s' := TakeLockStep(s, c);
      CallerFact(cfg, s, c);
      OpKept(s, s', op);
      forall d | d in s.callers && d != c && Holding(s.callers[d]) ensures Holds(s', s.callers[d].op, d) {
        HolderAlone(cfg, s, d, d);
      }
      LocalMoveKeeps(cfg, s, s', c, Locked(op));
    }
  }

  lemma OpKept(s: System, s': System, op: Op)
    requires OpOk(s, op) && s.issued <= s'.issued
    ensures OpOk(s', op)
  {
  }

  lemma RecheckKeeps(cfg: Config, s: System, c: nat)
    requires Inv(cfg, s)
    ensures Inv(cfg, RecheckStep(s, c))
  {
    hide CommitsOk, CallersOk, AllIssuedOk, OneCommitEach, AllCountersOk, LockKey, OpOk;
    if c in s.callers && s.callers[c].Locked? {
      CallerFact(cfg, s, c);
      OpKept(s, RecheckStep(s, c), s.callers[c].op);
      QuietMoveKeeps(cfg, s, c, RecheckStep(s, c).callers[c]);
    }
  }

  lemma ReadHeadKeeps(cfg: Config, s: System, c: nat, ok: bool)
    requires Inv(cfg, s)
    ensures Inv(cfg, ReadHeadStep(cfg, s, c, ok))
  {
    hide CommitsOk, CallersOk, AllIssuedOk, OneCommitEach, AllCountersOk, LockKey, OpOk;
    if c in s.callers && s.callers[c].Rechecked? {
      CallerFact(cfg, s, c);
      OpKept(s, ReadHeadStep(cfg, s, c, ok), s.callers[c].op);
      QuietMoveKeeps(cfg, s, c, ReadHeadStep(cfg, s, c, ok).callers[c]);
    }
  }

  lemma ReadHeadAgainKeeps(cfg: Config, s: System, c: nat, ok: bool)
    requires Inv(cfg, s)
    ensures Inv(cfg, ReadHeadAgainStep(cfg, s, c, ok))
  {
    hide CommitsOk, CallersOk, AllIssuedOk, OneCommitEach, AllCountersOk, LockKey, OpOk;
    if c in s.callers && s.callers[c].Conflicted? {
      CallerFact(cfg, s, c);
      OpKept(s, ReadHeadAgainStep(cfg, s, c, ok), s.callers[c].op);
      QuietMoveKeeps(cfg, s, c, ReadHeadAgainStep(cfg, s, c, ok).callers[c]);
    }
  }

  lemma RemoveKeeps(cfg: Config, s: System, c: nat)
    requires Inv(cfg, s)
    ensures Inv(cfg, RemoveStep(s, c))
  {
    hide CommitsOk, CallersOk, AllIssuedOk, OneCommitEach, AllCountersOk, LockKey, OpOk, HasCommitted;
    if c in s.callers && s.callers[c].Written? {
      var s', op := RemoveStep(s, c), s.callers[c].op;
      CallerFact(cfg, s, c);
      OpKept(s, s', op);
      KeepsCommitted(cfg, s, s', c, op.id, op.expected, s.callers[c].commitId);
      OthersHold(cfg, s, s', c);
      hide Holds;
      LocalMoveKeeps(cfg, s, s', c, s'.callers[c]);
    }
  }

  lemma UnlockKeeps(cfg: Config, s: System, c: nat)
    requires Inv(cfg, s)
    ensures Inv(cfg, UnlockStep(s, c))
  {
    hide CommitsOk, CallersOk, AllIssuedOk, OneCommitEach, AllCountersOk, LockKey, OpOk, OutcomeOk;
    if c in s.callers && s.callers[c].Returning? {
      var s' := UnlockStep(s, c);
      CallerFact(cfg, s, c);
      KeepsOutcome(cfg, s, s', c, s.callers[c].outcome);
      forall d | d in s.callers && d != c && Holding(s.callers[d]) ensures Holds(s', s.callers[d].op, d) {
        HolderAlone(cfg, s, c, d);
      }
      LocalMoveKeeps(cfg, s, s', c, s'.callers[c]);
    }
  }

  lemma FindIsPrefixTip(cs: seq<Revision>, id: string) returns (n: nat)
    requires FindCommit(cs, id).Some?
    ensures WasHead(cs, n, Some(id)) && Tip(cs[..n]) == FindCommit(cs, id).value.elements
  {
    if cs[0].id == id {
      n := 1;
      assert cs[..1] == [cs[0]];
    } else {
      var m := FindIsPrefixTip(cs[1..], id);
      n := m + 1;
      assert cs[..n] == [cs[0]] + cs[1..][..m];
      assert m > 0;
      assert cs[..n][n - 1] == cs[1..][..m][m - 1];
    }
  }

  lemma HeadIsWasHead(cs: seq<Revision>)
    ensures WasHead(cs, |cs|, HeadOf(cs))
  {
    assert cs[..|cs|] == cs;
  }

  lemma BeginProposeKeeps(cfg: Config, s: System, c: nat, p: Plan, ok: bool)
    requires Inv(cfg, s)
    ensures Inv(cfg, BeginProposeStep(cfg, s, c, p, ok))
  {
    hide CommitsOk, CallersOk, AllIssuedOk, OneCommitEach, AllCountersOk, WasHead, HeadOf;
    if c !in s.callers {
      var pc := BeginProposeStep(cfg, s, c, p, ok).callers[c];
      HeadIsWasHead(Chain(s, cfg.chainOf(p.target)));
      assert Chain(Move(s, c, pc), cfg.chainOf(p.target)) == Chain(s, cfg.chainOf(p.target));
      assert WasHead(Chain(Move(s, c, pc), cfg.chainOf(p.target)), |Chain(s, cfg.chainOf(p.target))|,
                     HeadOf(Chain(s, cfg.chainOf(p.target))));
      QuietMoveKeeps(cfg, s, c, pc);
    }
  }

  lemma NothingManaged(prefix: string)
    ensures Managed(map[], prefix) == []
  {
    assert ElementsOf(map[]) == [];
  }

  lemma EmptyRead(cs: seq<Revision>, p: Plan)
    ensures ReadAt(cs, 0, None, p, [])
  {
    assert cs[..0] == [];
    NothingManaged(p.prefix);
  }

  lemma ReadElementsKeeps(cfg: Config, s: System, c: nat, ok: bool)
    requires Inv(cfg, s)
    ensures Inv(cfg, ReadElementsStep(cfg, s, c, ok))
  {
    hide CommitsOk, CallersOk, AllIssuedOk, OneCommitEach, AllCountersOk, Managed;
    if c in s.callers && s.callers[c].HeadRead? {
      var p, head := s.callers[c].plan, s.callers[c].head;
      var pc := ReadElementsStep(cfg, s, c, ok).callers[c];
      var cs := Chain(Move(s, c, pc), cfg.chainOf(p.target));
      assert cs == Chain(s, cfg.chainOf(p.target));
      if head.None? {
        EmptyRead(cs, p);
      } else if FindCommit(cs, head.value).Some? {
        var n := FindIsPrefixTip(cs, head.value);
        assert ReadAt(cs, n, head, p, Managed(FindCommit(cs, head.value).value.elements, p.prefix));
      }
      hide ReadAt, FindCommit;
      QuietMoveKeeps(cfg, s, c, pc);
    }
  }

  lemma InsertKeeps(cfg: Config, s: System, c: nat)
    requires Inv(cfg, s)
    ensures Inv(cfg, InsertAt(cfg, s, c))
  {
    hide CommitsOk, CallersOk, AllIssuedOk, OneCommitEach, AllCountersOk, Managed, Diff;
    if c in s.callers && s.callers[c].ElementsRead? {
      var p, head, existing := s.callers[c].plan, s.callers[c].head, s.callers[c].existing;
      CallerFact(cfg, s, c);
      var n: nat :| ReadAt(Chain(s, cfg.chainOf(p.target)), n, head, p, existing);
      InsertedKeeps(cfg, s, c, p, head, existing, n);
    }
  }

  lemma InsertedKeeps(cfg: Config, s: System, c: nat, p: Plan, head: Option<string>, existing: seq<Element>, n: nat)
    requires Inv(cfg, s) && c in s.callers && s.callers[c].ElementsRead?
    requires ReadAt(Chain(s, cfg.chainOf(p.target)), n, head, p, existing)
    ensures Inv(cfg, InsertStep(cfg, s, c, p, head, existing))
  {
    hide *;
    var s' := InsertStep(cfg, s, c, p, head, existing);
    InvGives(cfg, s);
    InsertedShape(cfg, s, c, p, head, existing);
    OthersHold(cfg, s, s', c);
    InsertedIssued(cfg, s, c, p, head, existing, n);
    InsertedMove(cfg, s, s', c);
    LocalMoveKeeps(cfg, s, s', c, s'.callers[c]);
  }

  lemma InsertedShape(cfg: Config, s: System, c: nat, p: Plan, head: Option<string>, existing: seq<Element>)
    requires ProposalsOk(s)
    ensures var s' := InsertStep(cfg, s, c, p, head, existing);
            && s'.servers == s.servers && s'.flight == s.flight && s'.grounded == s.grounded && s.issued <= s'.issued
            && s'.locks == s.locks
            && ProposalsOk(s') && c in s'.callers && s'.callers == s.callers[c := s'.callers[c]]
            && s'.callers[c].Done? && !s'.callers[c].outcome.Committed?
  {
    hide Diff, ProposalsOk;
    if Diff(existing, p.desired).Ok? && Diff(existing, p.desired).value != [] {
      var changes := Diff(existing, p.desired).value;
      var id := cfg.changeId(p.target, head, changes);
      InsertedProposals(s, id, Stored(ProposedChange(id, p.target, head), changes, p.prefix, p.desired), c);
    } else {
      SameProposals(s, InsertStep(cfg, s, c, p, head, existing));
    }
  }

  lemma InsertedProposals(s: System, id: string, stored: Stored, c: nat)
    requires ProposalsOk(s) && stored.proposal.changeId == id
    ensures ProposalsOk(Move(s.(proposals := s.proposals[id := stored], issued := s.issued + {stored}), c,
                             Done(Proposed(stored.proposal))))
  {
  }

  lemma SameProposals(s: System, s': System)
    requires ProposalsOk(s) && s'.proposals == s.proposals && s'.issued == s.issued
    ensures ProposalsOk(s')
  {
  }

  lemma InsertedMove(cfg: Config, s: System, s': System, c: nat)
    requires s'.servers == s.servers && s'.flight == s.flight && s'.grounded == s.grounded && s.issued <= s'.issued
    requires ProposalsOk(s') && c in s'.callers && s'.callers == s.callers[c := s'.callers[c]]
    requires s'.callers[c].Done? && !s'.callers[c].outcome.Committed?
    requires c in s.callers && s.callers[c].ElementsRead?
    requires forall d :: d in s.callers && d != c && Holding(s.callers[d]) ==> Holds(s', s.callers[d].op, d)
    requires forall stored :: stored in s'.issued && stored !in s.issued ==> IssuedOk(cfg, s', stored)
    ensures LocalMove(cfg, s, s', c, s'.callers[c])
  {
    hide IssuedOk, Holds, Holding, HasCommitted, ProposalsOk;
  }

  lemma InsertedIssued(cfg: Config, s: System, c: nat, p: Plan, head: Option<string>, existing: seq<Element>, n: nat)
    requires ReadAt(Chain(s, cfg.chainOf(p.target)), n, head, p, existing)
    ensures var s' := InsertStep(cfg, s, c, p, head, existing);
            forall stored :: stored in s'.issued && stored !in s.issued ==> IssuedOk(cfg, s', stored)
  {
    hide Managed, Diff, LockKey;
    var s' := InsertStep(cfg, s, c, p, head, existing);
    assert s'.servers == s.servers;
    assert Chain(s', cfg.chainOf(p.target)) == Chain(s, cfg.chainOf(p.target));
    hide WasHead, ServerOf;
    forall stored | stored in s'.issued && stored !in s.issued ensures IssuedOk(cfg, s', stored) {
      assert ComputedAt(Chain(s', cfg.chainOf(p.target)), n, stored);
    }
  }

  // ---------------------------------------------------------------- steps that write

  /** What posting a commit can do: nothing, or append one revision on the head. */
  lemma PostEffect(server: State, enforces: bool, previous: Option<string>, changes: seq<DataVersion>, author: Author)
    ensures var (server', r) := Post(server, enforces, previous, changes, author);
            var cs := server.commits;
            if r.Err? then server'.commits == cs && server'.nextElement == server.nextElement && r.error == Conflict
            else
              && (enforces ==> previous == HeadOf(cs))
              && |server'.commits| == |cs| + 1 && server'.commits[..|cs|] == cs
              && Appended(cs, server'.commits[|cs|], server.nextElement, changes, author)
              && server'.nextElement == ApplyAll(Tip(cs), server.nextElement, changes).1
              && r.value == server'.commits[|cs|].id
  {
    hide ApplyAll;
  }

  ghost predicate Appended(cs: seq<Revision>, r: Revision, next: nat, changes: seq<DataVersion>, author: Author) {
    && r.id == CommitId(|cs| + 1) && r.changes == changes && r.author == author && r.counter == next
    && r.elements == ApplyAll(Tip(cs), next, changes).0
  }

  /** The server of `x` replaced, callers and proposals as in `s`. */
  ghost predicate ServerMoved(s: System, s': System, x: ChainId, cs: seq<Revision>) {
    && s'.proposals == s.proposals && s'.locks == s.locks && s'.issued == s.issued
    && Chain(s', x) == cs && (forall u :: u != x ==> ServerOf(s', u) == ServerOf(s, u))
  }

  lemma OthersKept(cfg: Config, s: System, s': System, x: ChainId, cs: seq<Revision>, c: nat, pc: Pc)
    requires Inv(cfg, s) && ServerMoved(s, s', x, cs) && Chain(s, x) <= cs && c in s.callers && c in s'.callers
    requires s.callers[c] == pc && s'.callers[c] == pc
    requires pc.HeadOk? && Exclusive(cfg) && cfg.chainOf(pc.op.Target()) == x ==> cs == Chain(s, x)
    ensures CallerOk(cfg, s', c, pc)
  {
    hide CommitsOk, CallersOk, AllIssuedOk, OneCommitEach, AllCountersOk, ProposalsOk;
    CallerFact(cfg, s, c);
    assert Extends(s, s');
    if Holding(pc) { HolderAlone(cfg, s, c, c); }
    hide LockKey, CallerOk;
    KeepsCaller(cfg, s, s', c, pc);
  }

  lemma CommitsGrow(cfg: Config, s: System, s': System, x: ChainId, cs: seq<Revision>)
    requires CommitsOk(cfg, s) && ServerMoved(s, s', x, cs) && Chain(s, x) <= cs
    requires |cs| <= |Chain(s, x)| + 1
    requires |cs| == |Chain(s, x)| + 1 ==> CommitOk(cfg, s', x, |Chain(s, x)|)
    requires forall c :: c in s.callers && MayHaveWritten(s.callers[c]) ==>
             c in s'.callers && MayHaveWritten(s'.callers[c])
    ensures CommitsOk(cfg, s')
  {
    hide CommitOk, MayHaveWritten;
    forall u, k: nat | k < |Chain(s', u)| ensures CommitOk(cfg, s', u, k) {
      if u != x || k < |Chain(s, x)| {
        assert CommitOk(cfg, s, u, k);
        AuthorWrote(cfg, s, u, k);
        KeepsCommit(cfg, s, s', u, k);
      }
    }
  }

  lemma CountersGrow(server: State, cs: seq<Revision>, next: nat, changes: seq<DataVersion>, author: Author)
    requires CountersOk(server.commits, server.nextElement)
    requires |cs| == |server.commits| + 1 && cs[..|server.commits|] == server.commits
    requires Appended(server.commits, cs[|server.commits|], server.nextElement, changes, author)
    requires next == ApplyAll(Tip(server.commits), server.nextElement, changes).1
    requires IdsIssued(ApplyAll(Tip(server.commits), server.nextElement, changes).0, next) && next >= server.nextElement
    ensures CountersOk(cs, next)
  {
    hide IdsIssued, ApplyAll;
    forall k | 0 <= k < |cs| ensures IdsIssued(Tip(cs[..k]), cs[k].counter) && cs[k].counter <= next {
      CountersAt(server, cs, k);
    }
    forall j, k | 0 <= j <= k < |cs| ensures cs[j].counter <= cs[k].counter {
      CountersAt(server, cs, j);
      CountersAt(server, cs, k);
    }
  }

  /** One revision of the grown chain: an old one, or the new one counting from the old counter. */
  lemma CountersAt(server: State, cs: seq<Revision>, k: nat)
    requires CountersOk(server.commits, server.nextElement) && k < |cs|
    requires |cs| == |server.commits| + 1 && cs[..|server.commits|] == server.commits
    requires cs[|server.commits|].counter == server.nextElement
    ensures IdsIssued(Tip(cs[..k]), cs[k].counter) && cs[k].counter <= server.nextElement
    ensures if k == |server.commits| then cs[k].counter == server.nextElement else cs[k] == server.commits[k]
  {
    hide IdsIssued, Tip;
    if k < |server.commits| {
      assert cs[..|server.commits|][k] == cs[k];
      assert cs[..k] == server.commits[..k];
    }
  }

  /** Changes naming only existing elements keep every id issued by the counter. */
  lemma {:induction false} GroundedIssued(els: Elements, next: nat, changes: seq<DataVersion>)
    requires IdsIssued(els, next)
    requires forall c :: c in changes && c.payload.Some? && c.identity.Some? ==> Issued(c.identity.value, next)
    ensures var (m, n) := ApplyAll(els, next, changes); IdsIssued(m, n) && n >= next
    decreases |changes|
  {
    if changes != [] {
      var rest, c := changes[..|changes| - 1], changes[|changes| - 1];
      assert changes == rest + [c];
      GroundedIssued(els, next, rest);
      var (m, n) := ApplyAll(els, next, rest);
      hide Issued, ElementId, ApplyAll;
      ApplySnoc(els, next, rest, c);
      match (c.payload, c.identity)
      case (Some(p), None) => MoreIssued(m, n, p);
      case (Some(p), Some(r)) => IssuedMonotone(r, next, n);
      case (None, Some(r)) => SubsetIssued(m, {r}, n);
      case (None, None) =>
    }
  }

  lemma IssuedMonotone(id: string, m: nat, n: nat)
    requires Issued(id, m) && m <= n
    ensures Issued(id, n)
  {
    hide ElementId;
  }

  lemma OutsideMoved(cfg: Config, s: System, x: ChainId, previous: Option<string>, changes: seq<DataVersion>)
    requires cfg.outsiders
    ensures var s' := OutsideStep(cfg, s, x, previous, changes);
            && ServerMoved(s, s', x, Chain(s', x)) && Chain(s, x) <= Chain(s', x) && |Chain(s', x)| <= |Chain(s, x)| + 1
            && (|Chain(s', x)| == |Chain(s, x)| + 1 ==>
                  Appended(Chain(s, x), Chain(s', x)[|Chain(s, x)|], ServerOf(s, x).nextElement, changes, Outside))
            && s'.callers == s.callers && s'.flight == s.flight
  {
    PostEffect(ServerOf(s, x), cfg.enforces, previous, changes, Outside);
    hide Post, Appended, Grounded;
  }

  lemma MovedExtends(s: System, s': System, x: ChainId)
    requires ServerMoved(s, s', x, Chain(s', x)) && Chain(s, x) <= Chain(s', x)
    ensures Extends(s, s')
  {
  }

  /** Writes under way stay so, unless their own commit is appended. */
  lemma FlightKept(cfg: Config, s: System, s': System, x: ChainId)
    requires FlightOk(cfg, s) && ServerMoved(s, s', x, Chain(s', x)) && Chain(s, x) <= Chain(s', x)
    requires |Chain(s', x)| <= |Chain(s, x)| + 1
    requires forall d :: d in s'.flight ==> d in s.flight && s'.flight[d] == s.flight[d]
    requires forall d :: d in s'.flight && |Chain(s', x)| == |Chain(s, x)| + 1 ==>
               Chain(s', x)[|Chain(s, x)|].author != Service(d)
    requires forall d :: d in s.callers && MayHaveWritten(s.callers[d]) ==>
               d in s'.callers && MayHaveWritten(s'.callers[d])
    ensures FlightOk(cfg, s')
  {
    hide OpOk, MayHaveWritten, NoCommitBy;
    forall d | d in s'.flight ensures cfg.late && InFlightOk(s', d, s'.flight[d]) {
      assert InFlightOk(s, d, s.flight[d]);
      OpKept(s, s', s.flight[d]);
      StillNoCommit(s, s', x, d);
    }
  }

  lemma StillNoCommit(s: System, s': System, x: ChainId, d: nat)
    requires NoCommitBy(s, d) && ServerMoved(s, s', x, Chain(s', x)) && Chain(s, x) <= Chain(s', x)
    requires |Chain(s', x)| <= |Chain(s, x)| + 1
    requires |Chain(s', x)| == |Chain(s, x)| + 1 ==> Chain(s', x)[|Chain(s, x)|].author != Service(d)
    ensures NoCommitBy(s', d)
  {
    forall u, k | 0 <= k < |Chain(s', u)| ensures Chain(s', u)[k].author != Service(d) {
      if u != x || k < |Chain(s, x)| { assert Chain(s', u)[k] == Chain(s, u)[k]; }
    }
  }

  lemma OutsideCallers(cfg: Config, s: System, s': System, x: ChainId)
    requires Inv(cfg, s) && !Exclusive(cfg) && s'.callers == s.callers
    requires ServerMoved(s, s', x, Chain(s', x)) && Chain(s, x) <= Chain(s', x)
    ensures CallersOk(cfg, s')
  {
    forall c | c in s'.callers ensures CallerOk(cfg, s', c, s'.callers[c]) {
      hide *;
      OthersKept(cfg, s, s', x, Chain(s', x), c, s.callers[c]);
    }
  }

  lemma OutsideKeeps(cfg: Config, s: System, x: ChainId, previous: Option<string>, changes: seq<DataVersion>)
    requires Inv(cfg, s)
    ensures Inv(cfg, OutsideStep(cfg, s, x, previous, changes))
  {
    hide Inv, Post;
    if cfg.outsiders {
      var s' := OutsideStep(cfg, s, x, previous, changes);
      OutsideMoved(cfg, s, x, previous, changes);
      InvGives(cfg, s);
      OutsideCounters(cfg, s, x, previous, changes);
      OutsideWrote(cfg, s, s', x, changes);
    }
  }

  lemma OutsideWrote(cfg: Config, s: System, s': System, x: ChainId, changes: seq<DataVersion>)
    requires Inv(cfg, s) && cfg.outsiders && AllCountersOk(s')
    requires ServerMoved(s, s', x, Chain(s', x)) && Chain(s, x) <= Chain(s', x)
    requires |Chain(s', x)| <= |Chain(s, x)| + 1
    requires |Chain(s', x)| == |Chain(s, x)| + 1 ==>
               Appended(Chain(s, x), Chain(s', x)[|Chain(s, x)|], ServerOf(s, x).nextElement, changes, Outside)
    requires s'.callers == s.callers && s'.flight == s.flight
    ensures Inv(cfg, s')
  {
    hide ApplyAll;
    NewOutsideCommit(cfg, s, s', x, changes);
    MovedExtends(s, s', x);
    OutsideCallers(cfg, s, s', x);
    hide CallersOk, AllIssuedOk, CommitsOk, OneCommitEach, AllCountersOk, FlightOk, CommitOk, SameCaller,
      MayHaveWritten;
    CommitsGrow(cfg, s, s', x, Chain(s', x));
    AllIssuedKept(cfg, s, s');
    OneCommitOutside(s, s', x, Chain(s', x));
    FlightKept(cfg, s, s', x);
  }

  lemma AllIssuedKept(cfg: Config, s: System, s': System)
    requires AllIssuedOk(cfg, s) && Extends(s, s') && s'.issued == s.issued
    ensures AllIssuedOk(cfg, s')
  {
    hide IssuedOk;
    forall stored | stored in s'.issued ensures IssuedOk(cfg, s', stored) { KeepsIssued(cfg, s, s', stored); }
  }

  lemma NewOutsideCommit(cfg: Config, s: System, s': System, x: ChainId, changes: seq<DataVersion>)
    requires Chain(s, x) <= Chain(s', x)
    requires |Chain(s', x)| == |Chain(s, x)| + 1 ==>
               Appended(Chain(s, x), Chain(s', x)[|Chain(s, x)|], ServerOf(s, x).nextElement, changes, Outside)
    ensures |Chain(s', x)| == |Chain(s, x)| + 1 ==> CommitOk(cfg, s', x, |Chain(s, x)|)
  {
    hide ApplyAll;
    if |Chain(s', x)| == |Chain(s, x)| + 1 {
      assert Chain(s', x)[..|Chain(s, x)|] == Chain(s, x);
    }
  }

  lemma OneCommitOutside(s: System, s': System, x: ChainId, cs: seq<Revision>)
    requires OneCommitEach(s) && ServerMoved(s, s', x, cs) && Chain(s, x) <= cs && |cs| <= |Chain(s, x)| + 1
    requires |cs| == |Chain(s, x)| + 1 ==> !cs[|Chain(s, x)|].author.Service?
    ensures OneCommitEach(s')
  {
    forall u, v, i, j | 0 <= i < |Chain(s', u)| && 0 <= j < |Chain(s', v)|
      && SameCaller(Chain(s', u)[i], Chain(s', v)[j])
      ensures u == v && i == j
    {
      assert i < |Chain(s, u)| && Chain(s, u)[i] == Chain(s', u)[i];
      assert j < |Chain(s, v)| && Chain(s, v)[j] == Chain(s', v)[j];
    }
  }

  lemma OutsideCounters(cfg: Config, s: System, x: ChainId, previous: Option<string>, changes: seq<DataVersion>)
    requires AllCountersOk(s)
    ensures AllCountersOk(OutsideStep(cfg, s, x, previous, changes))
  {
    var s' := OutsideStep(cfg, s, x, previous, changes);
    var server := ServerOf(s, x);
    PostEffect(server, cfg.enforces, previous, changes, Outside);
    hide Post, ApplyAll, CountersOk, Appended;
    if s'.grounded {
      assert CountersOk(Chain(s, x), server.nextElement);
      assert IdsIssued(Tip(server.commits), server.nextElement) by { CountersTip(server.commits, server.nextElement); }
      if cfg.outsiders && |Chain(s', x)| == |Chain(s, x)| + 1 {
        GroundedIssued(Tip(server.commits), server.nextElement, changes);
        CountersGrow(server, Chain(s', x), ServerOf(s', x).nextElement, changes, Outside);
      }
      forall u ensures CountersOk(Chain(s', u), ServerOf(s', u).nextElement) {
        if u != x { assert ServerOf(s', u) == ServerOf(s, u); }
      }
    }
  }

  lemma CountersTip(cs: seq<Revision>, next: nat)
    requires CountersOk(cs, next)
    ensures IdsIssued(Tip(cs), next)
  {
  }

  lemma InjectKeeps(cfg: Config, s: System, x: ChainId)
    requires Inv(cfg, s)
    ensures Inv(cfg, InjectStep(s, x))
  {
    var s' := InjectStep(s, x);
    InjectMoved(s, x);
    InjectCounters(s, x);
    MovedExtends(s, s', x);
    hide InjectStep, CallerOk, IssuedOk, CommitOk, CommitsOk, CallersOk, AllIssuedOk, SameCaller, AllCountersOk,
      ServerMoved, MayHaveWritten;
    CommitsGrow(cfg, s, s', x, Chain(s', x));
    InjectCallers(cfg, s, s', x);
    AllIssuedKept(cfg, s, s');
  }

  lemma InjectMoved(s: System, x: ChainId)
    ensures var s' := InjectStep(s, x);
            && ServerMoved(s, s', x, Chain(s', x)) && s'.callers == s.callers
            && forall u :: Chain(s', u) == Chain(s, u)
  {
  }

  lemma InjectCounters(s: System, x: ChainId)
    requires AllCountersOk(s)
    ensures AllCountersOk(InjectStep(s, x))
  {
    hide CountersOk;
    var s' := InjectStep(s, x);
    forall u | s'.grounded ensures CountersOk(Chain(s', u), ServerOf(s', u).nextElement) {
      assert Chain(s', u) == Chain(s, u) && ServerOf(s', u).nextElement == ServerOf(s, u).nextElement;
      assert CountersOk(Chain(s, u), ServerOf(s, u).nextElement);
    }
  }

  lemma InjectCallers(cfg: Config, s: System, s': System, x: ChainId)
    requires Inv(cfg, s) && s'.callers == s.callers
    requires ServerMoved(s, s', x, Chain(s', x)) && Chain(s', x) == Chain(s, x)
    ensures CallersOk(cfg, s')
  {
    forall c | c in s'.callers ensures CallerOk(cfg, s', c, s'.callers[c]) {
      hide *;
      OthersKept(cfg, s, s', x, Chain(s, x), c, s.callers[c]);
    }
  }

  // ---------------------------------------------------------------- the service's own write

  ghost predicate ChainMoved(before: seq<Revision>, after: seq<Revision>, expected: Option<string>, next: nat,
                             changes: seq<DataVersion>, c: nat)
  {
    && before <= after && |after| <= |before| + 1
    && (|after| == |before| + 1 ==>
          HeadOf(before) == expected && Appended(before, after[|before|], next, changes, Service(c)))
  }

  lemma PostMoves(server: State, enforces: bool, expected: Option<string>, changes: seq<DataVersion>, c: nat)
    requires enforces || HeadOf(server.commits) == expected
    ensures var (server', r) := Post(server, enforces, expected, changes, Service(c));
            && ChainMoved(server.commits, server'.commits, expected, server.nextElement, changes, c)
            && (r.Ok? <==> |server'.commits| == |server.commits| + 1)
            && (r.Ok? ==> r.value == server'.commits[|server.commits|].id
                          && server'.nextElement == ApplyAll(Tip(server.commits), server.nextElement, changes).1)
            && (r.Err? ==> r.error == Conflict && server'.nextElement == server.nextElement)
  {
    hide ApplyAll;
    PostEffect(server, enforces, expected, changes, Service(c));
    hide Appended;
  }

  /** The write of a caller that passed its head check: with a guarded configuration the server's
      head is the expected revision whenever the commit is appended. */
  lemma WriteMoved(cfg: Config, s: System, c: nat, op: Op, fault: Fault)
    requires Guarded(cfg) && CallersOk(cfg, s) && c in s.callers && s.callers[c] == HeadOk(op)
    requires fault.NoFault? || fault.ReplyLost?
    ensures var x := cfg.chainOf(op.Target());
            var s' := WriteStep(cfg, s, c, op, fault);
            && ServerMoved(s, s', x, Chain(s', x))
            && ChainMoved(Chain(s, x), Chain(s', x), op.expected, ServerOf(s, x).nextElement, op.stored.changes, c)
            && s'.callers == s.callers[c := WrittenPc(Chain(s, x), Chain(s', x), op, fault)]
            && s'.flight == s.flight && s'.grounded == s.grounded
            && ServerOf(s', x).nextElement == (if |Chain(s', x)| == |Chain(s, x)| + 1
                 then ApplyAll(Tip(Chain(s, x)), ServerOf(s, x).nextElement, op.stored.changes).1
                   else ServerOf(s, x).nextElement)
  {
    CallerFact(cfg, s, c);
    PostMoves(ServerOf(s, cfg.chainOf(op.Target())), cfg.enforces, op.expected, op.stored.changes, c);
    hide CallersOk, OpOk, Holds, Post, ChainMoved, CallerOk, ApplyAll, HeadOf, Tip, LockKey, Holding;
    var r := Post(ServerOf(s, cfg.chainOf(op.Target())), cfg.enforces, op.expected, op.stored.changes, Service(c));
    WriteShape(cfg, s, c, op, fault, r.0, r.1);
  }

  lemma WriteShape(cfg: Config, s: System, c: nat, op: Op, fault: Fault, server: State, r: Result<string, BackendError>)
    requires fault.NoFault? || fault.ReplyLost?
    requires (server, r)
             == Post(ServerOf(s, cfg.chainOf(op.Target())), cfg.enforces, op.expected, op.stored.changes, Service(c))
    requires r.Ok? ==>
             |server.commits| == |Chain(s, cfg.chainOf(op.Target()))| + 1
               && r.value == server.commits[|Chain(s, cfg.chainOf(op.Target()))|].id
    requires r.Err? ==> |server.commits| != |Chain(s, cfg.chainOf(op.Target()))| + 1 && r.error == Conflict
    ensures var x := cfg.chainOf(op.Target());
            var s' := WriteStep(cfg, s, c, op, fault);
            && ServerMoved(s, s', x, server.commits) && ServerOf(s', x) == server && s'.grounded == s.grounded
            && s'.callers == s.callers[c := WrittenPc(Chain(s, x), Chain(s', x), op, fault)]
            && s'.flight == s.flight
  {
    hide Post;
  }

  /** Where the writer stands afterwards. */
  ghost function WrittenPc(before: seq<Revision>, after: seq<Revision>, op: Op, fault: Fault): Pc {
    if fault == ReplyLost then Returning(op, Unavailable)
    else if |after| == |before| + 1 then Written(op, after[|before|].id)
    else Conflicted(op)
  }

  /** A caller still before its write has no commit anywhere. */
  lemma NotYetWritten(cfg: Config, s: System, c: nat)
    requires CommitsOk(cfg, s) && c in s.callers && !MayHaveWritten(s.callers[c])
    ensures NoCommitBy(s, c)
  {
    hide CommitOk, MayHaveWritten;
    forall x, k | 0 <= k < |Chain(s, x)| ensures Chain(s, x)[k].author != Service(c) {
      assert CommitOk(cfg, s, x, k);
      AuthorWrote(cfg, s, x, k);
    }
  }

  lemma NewServiceCommit(cfg: Config, s: System, s': System, x: ChainId, c: nat, op: Op)
    requires OpOk(s, op) && cfg.chainOf(op.Target()) == x && s'.issued == s.issued
    requires ChainMoved(Chain(s, x), Chain(s', x), op.expected, ServerOf(s, x).nextElement, op.stored.changes, c)
    requires |Chain(s', x)| == |Chain(s, x)| + 1
    requires c in s'.callers && MayHaveWritten(s'.callers[c])
    ensures CommitOk(cfg, s', x, |Chain(s, x)|)
    ensures HasCommitted(cfg, s', c, op.id, op.expected, Chain(s', x)[|Chain(s, x)|].id)
  {
    hide ApplyAll, MayHaveWritten;
    var n := |Chain(s, x)|;
    assert Chain(s', x)[..n] == Chain(s, x);
    assert Realizes(Chain(s', x), n, op.stored);
    assert CommittedAt(cfg, s', c, x, n, op.stored, op.id, op.expected, Chain(s', x)[n].id);
  }

  lemma OneCommitService(s: System, s': System, x: ChainId, c: nat)
    requires OneCommitEach(s) && ServerMoved(s, s', x, Chain(s', x)) && Chain(s, x) <= Chain(s', x)
    requires |Chain(s', x)| <= |Chain(s, x)| + 1
    requires |Chain(s', x)| == |Chain(s, x)| + 1 ==> Chain(s', x)[|Chain(s, x)|].author == Service(c)
    requires NoCommitBy(s, c)
    ensures OneCommitEach(s')
  {
    forall u, v, i, j | 0 <= i < |Chain(s', u)| && 0 <= j < |Chain(s', v)|
      && SameCaller(Chain(s', u)[i], Chain(s', v)[j])
      ensures u == v && i == j
    {
      if i < |Chain(s, u)| && j < |Chain(s, v)| {
        assert SameCaller(Chain(s, u)[i], Chain(s, v)[j]);
      } else if i < |Chain(s, u)| {
        assert Chain(s, u)[i].author != Service(c);
      } else if j < |Chain(s, v)| {
        assert Chain(s, v)[j].author != Service(c);
      }
    }
  }

  /** Nobody else stands past the head check on this branch: the writer holds its lock. */
  lemma WriteCallers(cfg: Config, s: System, s': System, c: nat)
    requires Inv(cfg, s) && c in s.callers && s.callers[c].HeadOk?
    requires var x := cfg.chainOf(s.callers[c].op.Target());
             ServerMoved(s, s', x, Chain(s', x)) && Chain(s, x) <= Chain(s', x)
    requires s'.callers.Keys == s.callers.Keys && forall d :: d in s.callers && d != c ==> s'.callers[d] == s.callers[d]
    requires CallerOk(cfg, s', c, s'.callers[c])
    ensures CallersOk(cfg, s')
  {
    var x := cfg.chainOf(s.callers[c].op.Target());
    forall d | d in s'.callers ensures CallerOk(cfg, s', d, s'.callers[d]) {
      if d != c {
        hide CommitsOk, CallersOk, AllIssuedOk, OneCommitEach, AllCountersOk, ProposalsOk, CallerOk, Holds, ServerMoved,
          LockKey;
        if s.callers[d].HeadOk? && Exclusive(cfg) && cfg.chainOf(s.callers[d].op.Target()) == x {
          HolderAlone(cfg, s, c, d);
        }
        OthersKept(cfg, s, s', x, Chain(s', x), d, s.callers[d]);
      }
    }
  }

  /** The position of a head in a chain is determined by the head: ids are never reused. */
  lemma HeadPosition(cfg: Config, s: System, x: ChainId, m: nat, n: nat, head: Option<string>)
    requires CommitsOk(cfg, s) && WasHead(Chain(s, x), m, head) && WasHead(Chain(s, x), n, head)
    ensures m == n
  {
    var cs := Chain(s, x);
    if m > 0 { assert CommitOk(cfg, s, x, m - 1) && cs[..m][m - 1] == cs[m - 1]; }
    if n > 0 { assert CommitOk(cfg, s, x, n - 1) && cs[..n][n - 1] == cs[n - 1]; }
    if m > 0 && n > 0 { CommitIdInjective(m, n); }
  }

  /** A proposal on the head was computed from the elements at the head. */
  lemma ComputedAtHead(cfg: Config, s: System, stored: Stored)
    requires CommitsOk(cfg, s) && IssuedOk(cfg, s, stored)
             && HeadOf(Chain(s, cfg.chainOf(stored.proposal.target))) == stored.proposal.base
    ensures Diff(Managed(Tip(Chain(s, cfg.chainOf(stored.proposal.target))), stored.prefix), stored.desired)
            == Ok(stored.changes)
  {
    hide Diff, Managed, CommitsOk;
    var x := cfg.chainOf(stored.proposal.target);
    var n: nat :| ComputedAt(Chain(s, x), n, stored);
    HeadIsWasHead(Chain(s, x));
    HeadPosition(cfg, s, x, n, |Chain(s, x)|, stored.proposal.base);
    assert Chain(s, x)[..n] == Chain(s, x);
  }

  /** The changes of an up-to-date proposal keep every element id issued by the counter. */
  lemma ServiceIssued(cfg: Config, s: System, stored: Stored)
    requires CommitsOk(cfg, s) && IssuedOk(cfg, s, stored)
             && HeadOf(Chain(s, cfg.chainOf(stored.proposal.target))) == stored.proposal.base
    requires var server := ServerOf(s, cfg.chainOf(stored.proposal.target));
             IdsIssued(Tip(server.commits), server.nextElement)
    ensures var server := ServerOf(s, cfg.chainOf(stored.proposal.target));
            var (m, n) := ApplyAll(Tip(server.commits), server.nextElement, stored.changes);
            IdsIssued(m, n) && n >= server.nextElement
  {
    var server := ServerOf(s, cfg.chainOf(stored.proposal.target));
    ComputedAtHead(cfg, s, stored);
    DiffGrounded(Tip(server.commits), stored.prefix, stored.desired, stored.changes);
    hide CommitsOk, IssuedOk, Diff, Managed, ApplyAll, Issued;
    GroundedIssued(Tip(server.commits), server.nextElement, stored.changes);
  }

  lemma WriteCounters(cfg: Config, s: System, s': System, x: ChainId, c: nat, stored: Stored)
    requires CommitsOk(cfg, s) && AllCountersOk(s) && IssuedOk(cfg, s, stored)
             && cfg.chainOf(stored.proposal.target) == x
    requires ServerMoved(s, s', x, Chain(s', x)) && s'.grounded == s.grounded
    requires ChainMoved(Chain(s, x), Chain(s', x), stored.proposal.base, ServerOf(s, x).nextElement, stored.changes, c)
    requires ServerOf(s', x).nextElement == (if |Chain(s', x)| == |Chain(s, x)| + 1
               then ApplyAll(Tip(Chain(s, x)), ServerOf(s, x).nextElement, stored.changes).1
                 else ServerOf(s, x).nextElement)
    ensures AllCountersOk(s')
  {
    hide ApplyAll, CountersOk, Appended, IssuedOk, CommitsOk, IdsIssued;
    if s'.grounded {
      assert CountersOk(Chain(s, x), ServerOf(s, x).nextElement);
      if |Chain(s', x)| == |Chain(s, x)| + 1 {
        CountersTip(Chain(s, x), ServerOf(s, x).nextElement);
        ServiceIssued(cfg, s, stored);
        CountersGrow(ServerOf(s, x), Chain(s', x), ServerOf(s', x).nextElement, stored.changes, Service(c));
      } else {
        assert Chain(s', x) == Chain(s, x);
      }
      forall u ensures CountersOk(Chain(s', u), ServerOf(s', u).nextElement) {
        if u != x { assert ServerOf(s', u) == ServerOf(s, u); }
      }
    }
  }

  lemma WriteKeeps(cfg: Config, s: System, c: nat, fault: Fault)
    requires Inv(cfg, s) && Guarded(cfg)
    ensures Inv(cfg, WriteAt(cfg, s, c, fault))
  {
    hide Inv, Post, HasCommitted, Guarded;
    if c in s.callers && s.callers[c].HeadOk? {
      var op := s.callers[c].op;
      if fault == Unsent {
        GivenUp(cfg, s, c, op);
      } else if fault == Late {
        if cfg.late { LateKeeps(cfg, s, c, op); }
      } else {
        WroteKeeps(cfg, s, c, op, fault);
      }
    }
  }

  /** A caller that hears nothing returns; the chains are as they were. */
  lemma GivenUp(cfg: Config, s: System, c: nat, op: Op)
    requires Inv(cfg, s) && c in s.callers && s.callers[c] == HeadOk(op)
    ensures Inv(cfg, Move(s, c, Returning(op, Unavailable))) && OpOk(s, op)
  {
    hide CommitsOk, CallersOk, AllIssuedOk, OneCommitEach, AllCountersOk, FlightOk, HasCommitted;
    CallerFact(cfg, s, c);
    hide OpOk, Holds;
    OpKept(s, Move(s, c, Returning(op, Unavailable)), op);
    HoldsKept(s, Move(s, c, Returning(op, Unavailable)), op, c);
    QuietMoveKeeps(cfg, s, c, Returning(op, Unavailable));
  }

  lemma LateKeeps(cfg: Config, s: System, c: nat, op: Op)
    requires Inv(cfg, s) && cfg.late && c in s.callers && s.callers[c] == HeadOk(op)
    ensures Inv(cfg, Move(s.(flight := s.flight[c := op]), c, Returning(op, Unavailable)))
  {
    var s1 := Move(s, c, Returning(op, Unavailable));
    GivenUp(cfg, s, c, op);
    hide Inv, OpOk, NoCommitBy, InFlightOk;
    NothingSent(cfg, s, c, op);
    UnderWay(cfg, s1, c, op);
    assert Move(s.(flight := s.flight[c := op]), c, Returning(op, Unavailable)) == s1.(flight := s1.flight[c := op]);
  }

  lemma NothingSent(cfg: Config, s: System, c: nat, op: Op)
    requires Inv(cfg, s) && c in s.callers && s.callers[c] == HeadOk(op) && OpOk(s, op)
    ensures InFlightOk(Move(s, c, Returning(op, Unavailable)), c, op)
  {
    assert CommitsOk(cfg, s) by { InvGives(cfg, s); }
    hide Inv, CommitsOk, OpOk, NoCommitBy, ServerOf;
    assert !MayHaveWritten(HeadOk(op)) && MayHaveWritten(Returning(op, Unavailable));
    hide MayHaveWritten;
    NotYetWritten(cfg, s, c);
    OpKept(s, Move(s, c, Returning(op, Unavailable)), op);
    NoCommitKept(s, Move(s, c, Returning(op, Unavailable)), c);
  }

  /** A write may come to be under way when its caller has given up on it without a commit. */
  lemma UnderWay(cfg: Config, s: System, c: nat, op: Op)
    requires Inv(cfg, s) && cfg.late && InFlightOk(s, c, op)
    ensures Inv(cfg, s.(flight := s.flight[c := op]))
  {
    var s' := s.(flight := s.flight[c := op]);
    SameButFlight(cfg, s, s');
    hide CommitsOk, CallersOk, AllIssuedOk, OneCommitEach, AllCountersOk, OpOk, MayHaveWritten, ProposalsOk;
    forall d | d in s'.flight ensures InFlightOk(s', d, s'.flight[d]) {
      if d != c { assert InFlightOk(s, d, s.flight[d]); }
      OpKept(s, s', s'.flight[d]);
      NoCommitKept(s, s', d);
    }
  }

  lemma SameButFlight(cfg: Config, s: System, s': System)
    requires Inv(cfg, s) && s' == s.(flight := s'.flight)
    ensures CommitsOk(cfg, s') && CallersOk(cfg, s') && AllIssuedOk(cfg, s') && ProposalsOk(s') && OneCommitEach(s')
            && AllCountersOk(s')
  {
    hide MayHaveWritten, CountersOk, SameCaller, LockKey, CallerOk, CommitOk, IssuedOk;
    SameChains(s, s');
    FlightCallers(cfg, s, s');
    forall x, k: nat | k < |Chain(s', x)| ensures CommitOk(cfg, s', x, k) {
      assert CommitOk(cfg, s, x, k);
      AuthorWrote(cfg, s, x, k);
      KeepsCommit(cfg, s, s', x, k);
    }
    AllIssuedKept(cfg, s, s');
  }

  lemma SameChains(s: System, s': System)
    requires s' == s.(flight := s'.flight)
    ensures Extends(s, s') && forall x :: Chain(s', x) == Chain(s, x) && ServerOf(s', x) == ServerOf(s, x)
  {
  }

  lemma FlightCallers(cfg: Config, s: System, s': System)
    requires CallersOk(cfg, s) && s' == s.(flight := s'.flight)
    ensures CallersOk(cfg, s')
  {
    SameChains(s, s');
    hide Extends, CallersOk;
    forall d | d in s'.callers ensures CallerOk(cfg, s', d, s'.callers[d]) {
      hide LockKey, CallerOk;
      CallerFact(cfg, s, d);
      if Holding(s.callers[d]) { HolderAlone(cfg, s, d, d); }
      KeepsCaller(cfg, s, s', d, s.callers[d]);
    }
    CallersTogether(cfg, s');
  }

  lemma CallersTogether(cfg: Config, s: System)
    requires forall d :: d in s.callers ==> CallerOk(cfg, s, d, s.callers[d])
    ensures CallersOk(cfg, s)
  {
    hide CallerOk;
  }

  lemma HoldsKept(s: System, s': System, op: Op, c: nat)
    requires Holds(s, op, c) && s'.locks == s.locks
    ensures Holds(s', op, c)
  {
  }

  lemma InvParts(cfg: Config, s: System)
    requires CommitsOk(cfg, s) && CallersOk(cfg, s) && AllIssuedOk(cfg, s) && ProposalsOk(s) && OneCommitEach(s)
             && AllCountersOk(s) && FlightOk(cfg, s)
    ensures Inv(cfg, s)
  {
  }

  /** A write of the service reached the server, at once or late. */
  ghost predicate Arrived(cfg: Config, s: System, s': System, c: nat, op: Op) {
    var x := cfg.chainOf(op.Target());
    && OpOk(s, op) && NoCommitBy(s, c)
    && ServerMoved(s, s', x, Chain(s', x))
    && ChainMoved(Chain(s, x), Chain(s', x), op.expected, ServerOf(s, x).nextElement, op.stored.changes, c)
    && ServerOf(s', x).nextElement == (if |Chain(s', x)| == |Chain(s, x)| + 1
         then ApplyAll(Tip(Chain(s, x)), ServerOf(s, x).nextElement, op.stored.changes).1
           else ServerOf(s, x).nextElement)
    && s'.grounded == s.grounded
    && c !in s'.flight && (forall d :: d in s'.flight ==> d in s.flight && s'.flight[d] == s.flight[d])
    && (|Chain(s', x)| == |Chain(s, x)| + 1 ==> c in s'.callers && MayHaveWritten(s'.callers[c]))
    && (forall d :: d in s.callers && MayHaveWritten(s.callers[d]) ==> d in s'.callers && MayHaveWritten(s'.callers[d]))
  }

  lemma ArrivedCommits(cfg: Config, s: System, s': System, c: nat, op: Op)
    requires CommitsOk(cfg, s) && OneCommitEach(s) && FlightOk(cfg, s) && Arrived(cfg, s, s', c, op)
    ensures CommitsOk(cfg, s') && OneCommitEach(s') && FlightOk(cfg, s')
    ensures var x := cfg.chainOf(op.Target());
            |Chain(s', x)| == |Chain(s, x)| + 1 ==>
              HasCommitted(cfg, s', c, op.id, op.expected, Chain(s', x)[|Chain(s, x)|].id)
  {
    hide CommitsOk, OneCommitEach, FlightOk, CommitOk, Appended, ApplyAll, SameCaller, MayHaveWritten, HasCommitted;
    var x := cfg.chainOf(op.Target());
    if |Chain(s', x)| == |Chain(s, x)| + 1 {
      NewServiceCommit(cfg, s, s', x, c, op);
      var r := Chain(s', x)[|Chain(s, x)|];
      AppendedAuthor(Chain(s, x), r, ServerOf(s, x).nextElement, op.stored.changes, c);
    }
    CommitsGrow(cfg, s, s', x, Chain(s', x));
    OneCommitService(s, s', x, c);
    FlightKept(cfg, s, s', x);
  }

  lemma AppendedAuthor(cs: seq<Revision>, r: Revision, next: nat, changes: seq<DataVersion>, c: nat)
    requires Appended(cs, r, next, changes, Service(c))
    ensures r.author == Service(c)
  {
  }

  lemma ArrivedRest(cfg: Config, s: System, s': System, c: nat, op: Op)
    requires Inv(cfg, s) && Arrived(cfg, s, s', c, op)
    ensures AllIssuedOk(cfg, s') && ProposalsOk(s') && AllCountersOk(s')
  {
    hide CommitsOk, CallersOk, OneCommitEach, AllCountersOk, FlightOk, CommitOk, Appended, ApplyAll, SameCaller,
      IssuedOk, MayHaveWritten;
    var x := cfg.chainOf(op.Target());
    MovedExtends(s, s', x);
    AllIssuedKept(cfg, s, s');
    WriteCounters(cfg, s, s', x, c, op.stored);
  }

  /** A write whose caller waits for it. */
  lemma WroteKeeps(cfg: Config, s: System, c: nat, op: Op, fault: Fault)
    requires Inv(cfg, s) && Guarded(cfg) && c in s.callers && s.callers[c] == HeadOk(op)
    requires fault.NoFault? || fault.ReplyLost?
    ensures Inv(cfg, WriteStep(cfg, s, c, op, fault))
  {
    var s' := WriteStep(cfg, s, c, op, fault);
    WroteArrives(cfg, s, c, op, fault);
    InvGives(cfg, s);
    hide *;
    ArrivedCommits(cfg, s, s', c, op);
    WroteCallers(cfg, s, s', c, op, fault);
    ArrivedRest(cfg, s, s', c, op);
    InvParts(cfg, s');
  }

  lemma WroteArrives(cfg: Config, s: System, c: nat, op: Op, fault: Fault)
    requires Inv(cfg, s) && Guarded(cfg) && c in s.callers && s.callers[c] == HeadOk(op)
    requires fault.NoFault? || fault.ReplyLost?
    ensures var s', x := WriteStep(cfg, s, c, op, fault), cfg.chainOf(op.Target());
            && Arrived(cfg, s, s', c, op)
            && s'.callers == s.callers[c := WrittenPc(Chain(s, x), Chain(s', x), op, fault)]
  {
    WriteMoved(cfg, s, c, op, fault);
    hide *;
    InvGives(cfg, s);
    CallerFact(cfg, s, c);
    WriterOp(cfg, s, c, op);
    WriterNotYet(cfg, s, c, op);
    WriterPc(s, WriteStep(cfg, s, c, op, fault), cfg.chainOf(op.Target()), c, op, fault);
    ArrivedIs(cfg, s, WriteStep(cfg, s, c, op, fault), c, op);
  }

  lemma ArrivedIs(cfg: Config, s: System, s': System, c: nat, op: Op)
    requires OpOk(s, op) && NoCommitBy(s, c) && c !in s'.flight && s'.grounded == s.grounded
    requires forall d :: d in s'.flight ==> d in s.flight && s'.flight[d] == s.flight[d]
    requires var x := cfg.chainOf(op.Target());
             && ServerMoved(s, s', x, Chain(s', x))
             && ChainMoved(Chain(s, x), Chain(s', x), op.expected, ServerOf(s, x).nextElement, op.stored.changes, c)
             && ServerOf(s', x).nextElement == (if |Chain(s', x)| == |Chain(s, x)| + 1
                  then ApplyAll(Tip(Chain(s, x)), ServerOf(s, x).nextElement, op.stored.changes).1
                  else ServerOf(s, x).nextElement)
             && (|Chain(s', x)| == |Chain(s, x)| + 1 ==> c in s'.callers && MayHaveWritten(s'.callers[c]))
    requires forall d :: d in s.callers && MayHaveWritten(s.callers[d]) ==>
               d in s'.callers && MayHaveWritten(s'.callers[d])
    ensures Arrived(cfg, s, s', c, op)
  {
    hide OpOk, NoCommitBy, ServerMoved, ChainMoved, ApplyAll, Tip, MayHaveWritten;
  }

  lemma WriterPc(s: System, s': System, x: ChainId, c: nat, op: Op, fault: Fault)
    requires c in s.callers && s.callers[c] == HeadOk(op)
    requires s'.callers == s.callers[c := WrittenPc(Chain(s, x), Chain(s', x), op, fault)]
    ensures |Chain(s', x)| == |Chain(s, x)| + 1 ==> c in s'.callers && MayHaveWritten(s'.callers[c])
    ensures forall d :: d in s.callers && MayHaveWritten(s.callers[d]) ==>
            d in s'.callers && MayHaveWritten(s'.callers[d])
  {
  }

  lemma WriterOp(cfg: Config, s: System, c: nat, op: Op)
    requires CallerOk(cfg, s, c, HeadOk(op))
    ensures OpOk(s, op) && Holds(s, op, c)
  {
  }

  lemma WriterNotYet(cfg: Config, s: System, c: nat, op: Op)
    requires CommitsOk(cfg, s) && FlightOk(cfg, s) && c in s.callers && s.callers[c] == HeadOk(op)
    ensures c !in s.flight && NoCommitBy(s, c)
  {
    assert c in s.flight ==> InFlightOk(s, c, s.flight[c]);
    hide CommitsOk, FlightOk, NoCommitBy;
    NotYetWritten(cfg, s, c);
  }

  lemma WroteCallers(cfg: Config, s: System, s': System, c: nat, op: Op, fault: Fault)
    requires Inv(cfg, s) && Arrived(cfg, s, s', c, op) && c in s.callers && s.callers[c] == HeadOk(op)
    requires var x := cfg.chainOf(op.Target());
             && s'.callers == s.callers[c := WrittenPc(Chain(s, x), Chain(s', x), op, fault)]
             && (|Chain(s', x)| == |Chain(s, x)| + 1 ==>
                   HasCommitted(cfg, s', c, op.id, op.expected, Chain(s', x)[|Chain(s, x)|].id))
    ensures CallersOk(cfg, s')
  {
    hide CommitsOk, CallersOk, AllIssuedOk, OneCommitEach, AllCountersOk, FlightOk, CommitOk, Appended, ApplyAll,
      SameCaller, OpOk, HasCommitted, Holds, ProposalsOk, NoCommitBy;
    var x := cfg.chainOf(op.Target());
    CallerFact(cfg, s, c);
    OpKept(s, s', op);
    HoldsKept(s, s', op, c);
    WriteCallers(cfg, s, s', c);
  }

  /** A write that lands late, on a server that checks `previousCommit`. */
  lemma LandArrives(cfg: Config, s: System, c: nat)
    requires Inv(cfg, s) && cfg.enforces && c in s.flight
    ensures var s', op := LandStep(cfg, s, c), s.flight[c];
            Arrived(cfg, s, s', c, op) && s'.callers == s.callers && s'.flight == s.flight - {c}
  {
    var op := s.flight[c];
    var x := cfg.chainOf(op.Target());
    InvGives(cfg, s);
    assert InFlightOk(s, c, op);
    PostMoves(ServerOf(s, x), cfg.enforces, op.expected, op.stored.changes, c);
    LandShape(cfg, s, c);
    hide *;
    PostNext(ServerOf(s, x), cfg.enforces, op.expected, op.stored.changes, c);
    ArrivedIs(cfg, s, LandStep(cfg, s, c), c, op);
  }

  lemma LandShape(cfg: Config, s: System, c: nat)
    requires c in s.flight
    ensures var s', op := LandStep(cfg, s, c), s.flight[c];
            var x := cfg.chainOf(op.Target());
            var server := Post(ServerOf(s, x), cfg.enforces, op.expected, op.stored.changes, Service(c)).0;
            && ServerMoved(s, s', x, Chain(s', x)) && ServerOf(s', x) == server && Chain(s', x) == server.commits
            && s'.callers == s.callers && s'.flight == s.flight - {c} && s'.grounded == s.grounded
  {
    hide Post;
  }

  lemma PostNext(server: State, enforces: bool, expected: Option<string>, changes: seq<DataVersion>, c: nat)
    ensures var server' := Post(server, enforces, expected, changes, Service(c)).0;
            server'.nextElement == if |server'.commits| == |server.commits| + 1
              then ApplyAll(Tip(server.commits), server.nextElement, changes).1 else server.nextElement
  {
    hide ApplyAll;
  }

  lemma LandKeeps(cfg: Config, s: System, c: nat)
    requires Inv(cfg, s) && Guarded(cfg)
    ensures Inv(cfg, LandStep(cfg, s, c))
  {
    if c in s.flight {
      var s', op := LandStep(cfg, s, c), s.flight[c];
      var x := cfg.chainOf(op.Target());
      InvGives(cfg, s);
      assert cfg.late && cfg.enforces;
      LandArrives(cfg, s, c);
      assert ServerMoved(s, s', x, Chain(s', x)) && Chain(s, x) <= Chain(s', x) && !Exclusive(cfg);
      hide *;
      ArrivedCommits(cfg, s, s', c, op);
      OutsideCallers(cfg, s, s', x);
      ArrivedRest(cfg, s, s', c, op);
      InvParts(cfg, s');
    }
  }

  // ---------------------------------------------------------------- every reachable state

  lemma StepKeeps(cfg: Config, s: System, a: Action)
    requires Inv(cfg, s) && Guarded(cfg)
    ensures Inv(cfg, Step(cfg, s, a))
  {
    hide Inv, InjectStep, OutsideStep, BeginCommitStep, TakeLockStep, RecheckStep, ReadHeadStep, WriteAt, LandStep,
      ReadHeadAgainStep, RemoveStep, UnlockStep, BeginProposeStep, ReadElementsStep, InsertAt;
    match a
    case InjectConflict(x) => InjectKeeps(cfg, s, x);
    case OutsideWrite(x, previous, changes) => OutsideKeeps(cfg, s, x, previous, changes);
    case BeginCommit(c, id, expected) => BeginCommitKeeps(cfg, s, c, id, expected);
    case TakeLock(c) => TakeLockKeeps(cfg, s, c);
    case Recheck(c) => RecheckKeeps(cfg, s, c);
    case ReadHead(c, ok) => ReadHeadKeeps(cfg, s, c, ok);
    case Write(c, fault) => WriteKeeps(cfg, s, c, fault);
    case Land(c) => LandKeeps(cfg, s, c);
    case ReadHeadAgain(c, ok) => ReadHeadAgainKeeps(cfg, s, c, ok);
    case Remove(c) => RemoveKeeps(cfg, s, c);
    case Unlock(c) => UnlockKeeps(cfg, s, c);
    case BeginPropose(c, p, ok) => BeginProposeKeeps(cfg, s, c, p, ok);
    case ReadElements(c, ok) => ReadElementsKeeps(cfg, s, c, ok);
    case Insert(c) => InsertKeeps(cfg, s, c);
  }

  lemma {:induction false} RunKeeps(cfg: Config, s: System, actions: seq<Action>)
    requires Inv(cfg, s) && Guarded(cfg)
    ensures Inv(cfg, Run(cfg, s, actions))
    decreases |actions|
  {
    hide Inv, Step;
    if actions != [] {
      StepKeeps(cfg, s, actions[0]);
      RunKeeps(cfg, Step(cfg, s, actions[0]), actions[1..]);
    }
  }
}
