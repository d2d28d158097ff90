/** The stateful server of `crates/kr0ki-core/src/change_service.rs`: one chain of commits, each
    holding the elements of the previous one with its changes applied. */
module ModelServer {
  import opened Ordering
  import opened SyncEngine
  import opened Text
  import opened Wrappers

  type Payload = map<string, Json>
  type Elements = map<string, Payload>

  datatype Author = Service(caller: nat) | Outside

  /** A commit. Who wrote it, its changes and the element counter it started from are recorded
      for reasoning only: no operation reads them. */
  datatype Revision = Revision(id: string, elements: Elements, changes: seq<DataVersion>, author: Author, counter: nat)

  datatype State = State(commits: seq<Revision>, nextElement: nat, conflictOnce: bool)

  datatype BackendError = Conflict | Other(message: string)

  const Empty := State([], 0, false)

  function CommitId(n: nat): string {
    "commit-" + Decimal(n)
  }

  function ElementId(n: nat): string {
    "el-" + Decimal(n)
  }

  lemma CommitIdInjective(m: nat, n: nat)
    requires CommitId(m) == CommitId(n)
    ensures m == n
  {
    assert CommitId(m)[7..] == Decimal(m) && CommitId(n)[7..] == Decimal(n);
    DecimalInjective(m, n);
  }

  lemma ElementIdInjective(m: nat, n: nat)
    requires ElementId(m) == ElementId(n)
    ensures m == n
  {
    assert ElementId(m)[3..] == Decimal(m) && ElementId(n)[3..] == Decimal(n);
    DecimalInjective(m, n);
  }

  function HeadOf(commits: seq<Revision>): Option<string> {
    if commits == [] then None else Some(commits[|commits| - 1].id)
  }

  function Tip(commits: seq<Revision>): Elements {
    if commits == [] then map[] else commits[|commits| - 1].elements
  }

  /** One change of a commit: create under a fresh id, replace, delete, or nothing. */
  function ApplyOne(els: Elements, next: nat, c: DataVersion): (Elements, nat) {
    match (c.payload, c.identity)
    case (Some(p), None) => (els[ElementId(next + 1) := p], next + 1)
    case (Some(p), Some(r)) => (els[r := p], next)
    case (None, Some(r)) => (els - {r}, next)
    case (None, None) => (els, next)
  }

  function ApplyAll(els: Elements, next: nat, changes: seq<DataVersion>): (Elements, nat) {
    if changes == [] then (els, next)
    else
      var (els', next') := ApplyAll(els, next, changes[..|changes| - 1]);
      ApplyOne(els', next', changes[|changes| - 1])
  }

  /** A posted commit: refused once after an injected conflict, refused when the server enforces
      `previousCommit` and it is not the head, and appended otherwise. */
  function Post(s: State, enforces: bool, previous: Option<string>, changes: seq<DataVersion>, author: Author)
    : (State, Result<string, BackendError>)
  {
    if s.conflictOnce then (s.(conflictOnce := false), Err(Conflict))
    else if enforces && previous != HeadOf(s.commits) then (s, Err(Conflict))
    else
      var (elements, next) := ApplyAll(Tip(s.commits), s.nextElement, changes);
      var id := CommitId(|s.commits| + 1);
      (State(s.commits + [Revision(id, elements, changes, author, s.nextElement)], next, false), Ok(id))
  }

  /** A stored payload as a fetched element: `@id` set, `@type` lifted out. */
  function ReadElement(id: string, p: Payload): Element {
    Element(id, if "@type" in p && p["@type"].Str? then p["@type"].s else "", p - {"@id", "@type"})
  }

  function ReadAll(els: Elements, ids: seq<string>): (r: seq<Element>)
    requires forall id :: id in ids ==> id in els
    ensures |r| == |ids|
    ensures forall k :: 0 <= k < |r| ==> r[k] == ReadElement(ids[k], els[ids[k]])
  {
    seq(|ids|, k requires 0 <= k < |ids| => ReadElement(ids[k], els[ids[k]]))
  }

  function ElementsOf(els: Elements): seq<Element> {
    ReadAll(els, InOrder(els.Keys))
  }

  /** The first commit with this id. */
  function FindCommit(commits: seq<Revision>, id: string): Option<Revision> {
    if commits == [] then None else if commits[0].id == id then Some(commits[0]) else FindCommit(commits[1..], id)
  }

  class InMemoryServer {
    const enforcesPrevious: bool
    var state: State

    constructor (enforces: bool)
      ensures enforcesPrevious == enforces && state == Empty
    {
      enforcesPrevious, state := enforces, Empty;
    }

    method InjectConflictOnce()
      modifies this
      ensures state == old(state).(conflictOnce := true)
    {
      state := state.(conflictOnce := true);
    }

    method Head() returns (head: Option<string>)
      ensures head == HeadOf(state.commits)
    {
      head := if |state.commits| == 0 then None else Some(state.commits[|state.commits| - 1].id);
    }

    method ElementsAt(commit: string) returns (r: Result<seq<Element>, BackendError>)
      ensures r == match FindCommit(state.commits, commit)
                   case Some(c) => Ok(ElementsOf(c.elements))
                   case None => Err(Other("no commit " + commit))
    {
      for k := 0 to |state.commits|
        invariant FindCommit(state.commits, commit) == FindCommit(state.commits[k..], commit)
      {
        assert state.commits[k..][1..] == state.commits[k + 1..];
        if state.commits[k].id == commit {
          return Ok(ElementsOf(state.commits[k].elements));
        }
      }
      r := Err(Other("no commit " + commit));
    }

    method Commit(previous: Option<string>, changes: seq<DataVersion>, author: Author)
      returns (r: Result<string, BackendError>)
      modifies this
      ensures (state, r) == Post(old(state), enforcesPrevious, previous, changes, author)
    {
      if state.conflictOnce {
        state := state.(conflictOnce := false);
        return Err(Conflict);
      }
      var head := Head();
      if enforcesPrevious && previous != head { return Err(Conflict); }
      var elements := Tip(state.commits);
      var next := state.nextElement;
      for k := 0 to |changes|
        invariant (elements, next) == ApplyAll(Tip(state.commits), state.nextElement, changes[..k])
        invariant state == old(state)
      {
        assert changes[..k + 1] == changes[..k] + [changes[k]];
        assert changes[..k + 1][..k] == changes[..k];
        match (changes[k].payload, changes[k].identity)
        case (Some(p), None) =>
          next := next + 1;
          elements := elements[ElementId(next) := p];
        case (Some(p), Some(r)) => elements := elements[r := p];
        case (None, Some(r)) => elements := elements - {r};
        case (None, None) =>
      }
      assert changes[..|changes|] == changes;
      var id := CommitId(|state.commits| + 1);
      state := State(state.commits + [Revision(id, elements, changes, author, state.nextElement)], next, false);
      r := Ok(id);
    }
  }
}
