/** `RustBehaviorIr::normalize` (`crates/kr0ki-behavior/src/lib.rs`): a canonical order that
    changes neither the content nor the verdict. */
module Normalize {
  import opened BehaviorIr
  import opened Forest
  import opened Graph
  import opened IrValidation
  import opened MachineRuntime
  import opened MachineValidation
  import opened Ordering
  import opened SourceText
  import opened Wrappers

  const SourceKey := (s: SourceFile) => StrKey(s.path)
  const NodeKey := (n: Node) => StrKey(n.id)
  const EdgeKey := (e: Edge) => StrKey(e.id)
  const MachineKey := (m: StateMachine) => StrKey(m.id)
  const StateKey := (s: MachineState) => StrKey(s.id)
  const TransitionKey := (t: Transition) => StrKey(t.id)

  function NormalNode(n: Node): Node {
    n.(annotations := Dedup(Sort(n.annotations, AnnotationKey)))
  }

  function NormalMachine(m: StateMachine): StateMachine {
    m.(states := Sort(m.states, StateKey), transitions := Sort(m.transitions, TransitionKey))
  }

  function Each<T>(xs: seq<T>, f: T -> T): (r: seq<T>)
    ensures |r| == |xs| && forall i :: 0 <= i < |xs| ==> r[i] == f(xs[i])
  {
    seq(|xs|, i requires 0 <= i < |xs| => f(xs[i]))
  }

  function Normalized(ir: RustBehaviorIr): RustBehaviorIr {
    ir.(sources := Sort(ir.sources, SourceKey),
        nodes := Each(Sort(ir.nodes, NodeKey), NormalNode),
        edges := Sort(ir.edges, EdgeKey),
        diagnostics := Dedup(Sort(ir.diagnostics, DiagnosticKey)),
        machines := Each(Sort(ir.machines, MachineKey), NormalMachine))
  }

  /** An IR held by its owner, as `&mut self` sees it. */
  class Document {
    var ir: RustBehaviorIr

    constructor (ir: RustBehaviorIr)
      ensures this.ir == ir
    {
      this.ir := ir;
    }

    /** Sort and deduplicate in place. */
    method Normalize()
      modifies this
      ensures ir == Normalized(old(ir))
    {
      hide *;
      ghost var ir0 := ir;
      ir := ir.(sources := Sort(ir.sources, SourceKey));
      ir := ir.(nodes := Sort(ir.nodes, NodeKey));
      ghost var sorted := ir.nodes;
      for i := 0 to |ir.nodes|
        invariant ir == ir0.(sources := Sort(ir0.sources, SourceKey), nodes := ir.nodes)
        invariant |ir.nodes| == |sorted|
        invariant forall k :: 0 <= k < |sorted| ==> ir.nodes[k] == if k < i then NormalNode(sorted[k]) else sorted[k]
      {
        var node := ir.nodes[i];
        node := node.(annotations := Sort(node.annotations, AnnotationKey));
        node := node.(annotations := Dedup(node.annotations));
        NormalNodeIs(sorted[i]);
        ir := ir.(nodes := ir.nodes[i := node]);
      }
      assert ir.nodes == Each(sorted, NormalNode);
      ir := ir.(edges := Sort(ir.edges, EdgeKey));
      ir := ir.(diagnostics := Sort(ir.diagnostics, DiagnosticKey));
      ir := ir.(diagnostics := Dedup(ir.diagnostics));
      ir := ir.(machines := Sort(ir.machines, MachineKey));
      ghost var table := ir.machines;
      ghost var ir1 := ir;
      for i := 0 to |ir.machines|
        invariant ir == ir1.(machines := ir.machines)
        invariant |ir.machines| == |table|
        invariant forall k :: 0 <= k < |table| ==> ir.machines[k] == if k < i then NormalMachine(table[k]) else table[k]
      {
        var machine := ir.machines[i];
        machine := machine.(states := Sort(machine.states, StateKey));
        machine := machine.(transitions := Sort(machine.transitions, TransitionKey));
        NormalMachineIs(table[i]);
        ir := ir.(machines := ir.machines[i := machine]);
      }
      assert ir.machines == Each(table, NormalMachine);
      NormalizedIs(ir0);
    }
  }

  lemma NormalNodeIs(n: Node)
    ensures NormalNode(n) == n.(annotations := Dedup(Sort(n.annotations, AnnotationKey)))
  {
  }

  lemma NormalMachineIs(m: StateMachine)
    ensures NormalMachine(m)
            == m.(states := Sort(m.states, StateKey), transitions := Sort(m.transitions, TransitionKey))
  {
  }

  lemma NormalizedIs(ir: RustBehaviorIr)
    ensures Normalized(ir)
            == ir.(sources := Sort(ir.sources, SourceKey),
                   nodes := Each(Sort(ir.nodes, NodeKey), NormalNode),
                   edges := Sort(ir.edges, EdgeKey),
                   diagnostics := Dedup(Sort(ir.diagnostics, DiagnosticKey)),
                   machines := Each(Sort(ir.machines, MachineKey), NormalMachine))
  {
  }

  // ---------------------------------------------------------------- content without order

  datatype NodeContent = NodeContent(id: string, name: string, kind: NodeKind, anchor: Option<Anchor>,
                                     annotations: set<SourceAnnotation>)

  datatype MachineContent = MachineContent(id: string, name: string, initial: string,
                                           states: multiset<MachineState>, transitions: multiset<Transition>)

  /** What two reorderings of one IR share: the order of every vector is forgotten, and so is
      the repetition of annotations and diagnostics. */
  datatype Content = Content(schemaVersion: nat, provenance: Provenance, sources: multiset<SourceFile>,
                             nodes: multiset<NodeContent>, edges: multiset<Edge>, diagnostics: set<Diagnostic>,
                             machines: multiset<MachineContent>)

  ghost function OfNode(n: Node): NodeContent {
    NodeContent(n.id, n.name, n.kind, n.anchor, set a | a in n.annotations)
  }

  ghost function OfMachine(m: StateMachine): MachineContent {
    MachineContent(m.id, m.name, m.initial, multiset(m.states), multiset(m.transitions))
  }

  ghost function Images<S, T>(xs: seq<S>, f: S -> T): (r: seq<T>)
    ensures |r| == |xs| && forall i :: 0 <= i < |xs| ==> r[i] == f(xs[i])
  {
    seq(|xs|, i requires 0 <= i < |xs| => f(xs[i]))
  }

  ghost function OfIr(ir: RustBehaviorIr): Content {
    Content(ir.schemaVersion, ir.provenance, multiset(ir.sources), multiset(Images(ir.nodes, OfNode)),
            multiset(ir.edges), set d | d in ir.diagnostics, multiset(Images(ir.machines, OfMachine)))
  }

  ghost predicate Reordering(a: RustBehaviorIr, b: RustBehaviorIr) {
    OfIr(a) == OfIr(b)
  }

  // ---------------------------------------------------------------- permutations

  lemma SameMembers<T>(xs: seq<T>, ys: seq<T>)
    requires multiset(xs) == multiset(ys)
    ensures forall x :: x in xs <==> x in ys
  {
    forall x ensures x in xs <==> x in ys {
      assert x in xs <==> x in multiset(xs);
      assert x in ys <==> x in multiset(ys);
    }
  }

  lemma SameMember<T>(xs: seq<T>, ys: seq<T>, x: T)
    requires multiset(xs) == multiset(ys)
    ensures x in xs <==> x in ys
  {
    SameMembers(xs, ys);
  }

  lemma {:induction false} CountAtMostOne<T>(xs: seq<T>, key: T -> Key, x: T)
    requires DistinctKeys(xs, key)
    ensures multiset(xs)[x] <= 1
  {
    if xs != [] {
      assert xs == [xs[0]] + xs[1..];
      CountAtMostOne(xs[1..], key, x);
      if x == xs[0] {
        assert x !in xs[1..];
      }
    }
  }

  lemma CountAtLeastTwo<T>(xs: seq<T>, i: nat, j: nat)
    requires i < j < |xs| && xs[i] == xs[j]
    ensures multiset(xs)[xs[i]] >= 2
  {
    assert xs == xs[..j] + [xs[j]] + xs[j + 1..];
    assert xs[i] in xs[..j];
  }

  lemma DistinctPermuted<T>(xs: seq<T>, ys: seq<T>, key: T -> Key)
    requires multiset(xs) == multiset(ys) && DistinctKeys(xs, key)
    ensures DistinctKeys(ys, key)
  {
    SameMembers(xs, ys);
    forall i, j | 0 <= i < j < |ys| ensures key(ys[i]) != key(ys[j]) {
      if key(ys[i]) == key(ys[j]) {
        assert ys[i] in ys && ys[j] in ys;
        assert ys[i] == ys[j];
        CountAtLeastTwo(ys, i, j);
        CountAtMostOne(xs, key, ys[i]);
      }
    }
  }

  lemma ImagesWithout<S, T>(xs: seq<S>, k: nat, f: S -> T)
    requires k < |xs|
    ensures var rest := xs[..k] + xs[k + 1..];
            && multiset(xs) == multiset(rest) + multiset{xs[k]}
            && multiset(Images(xs, f)) == multiset(Images(rest, f)) + multiset{f(xs[k])}
  {
    assert xs == xs[..k] + [xs[k]] + xs[k + 1..];
    ImagesConcat(xs[..k], xs[k + 1..], f);
    ImagesConcat(xs[..k], [xs[k]], f);
    ImagesConcat(xs[..k] + [xs[k]], xs[k + 1..], f);
    assert Images([xs[k]], f) == [f(xs[k])];
    hide Images;
  }

  lemma ImagesConcat<S, T>(xs: seq<S>, ys: seq<S>, f: S -> T)
    ensures Images(xs + ys, f) == Images(xs, f) + Images(ys, f)
  {
  }

  lemma {:induction false} ImagesPermuted<S, T>(xs: seq<S>, ys: seq<S>, f: S -> T)
    requires multiset(xs) == multiset(ys)
    ensures multiset(Images(xs, f)) == multiset(Images(ys, f))
    decreases |xs|
  {
    assert |xs| == |multiset(xs)| && |ys| == |multiset(ys)|;
    if xs != [] {
      hide Images;
      var k := FirstTaken(xs, ys);
      ImagesWithout(xs, 0, f);
      ImagesWithout(ys, k, f);
      ImagesPermuted(xs[..0] + xs[1..], ys[..k] + ys[k + 1..], f);
    }
  }

  /** The first element of one ordering stands somewhere in the other. */
  lemma FirstTaken<S>(xs: seq<S>, ys: seq<S>) returns (k: nat)
    requires multiset(xs) == multiset(ys) && xs != []
    ensures k < |ys| && ys[k] == xs[0] && multiset(xs[..0] + xs[1..]) == multiset(ys[..k] + ys[k + 1..])
  {
    SameMember(xs, ys, xs[0]);
    k :| 0 <= k < |ys| && ys[k] == xs[0];
    assert xs == [xs[0]] + xs[1..] && xs[..0] + xs[1..] == xs[1..] && ys == ys[..k] + [ys[k]] + ys[k + 1..];
    assert multiset(ys[..k] + ys[k + 1..]) == multiset(ys) - multiset{xs[0]};
  }

  /** Equal multisets of images pair every element of one side with one of the other. */
  lemma ImageOf<S, T>(xs: seq<S>, ys: seq<S>, f: S -> T, x: S) returns (y: S)
    requires multiset(Images(xs, f)) == multiset(Images(ys, f)) && x in xs
    ensures y in ys && f(y) == f(x)
  {
    var i :| 0 <= i < |xs| && xs[i] == x;
    assert Images(xs, f)[i] == f(x);
    assert f(x) in Images(xs, f);
    SameMember(Images(xs, f), Images(ys, f), f(x));
    var j :| 0 <= j < |ys| && Images(ys, f)[j] == f(x);
    y := ys[j];
  }

  lemma DistinctImages<S, T>(xs: seq<S>, ys: seq<S>, f: S -> T, key: S -> Key, image: T -> Key)
    requires multiset(Images(xs, f)) == multiset(Images(ys, f))
    requires forall x :: image(f(x)) == key(x)
    requires DistinctKeys(xs, key)
    ensures DistinctKeys(ys, key)
  {
    forall i, j | 0 <= i < j < |xs| ensures image(Images(xs, f)[i]) != image(Images(xs, f)[j]) {
      assert key(xs[i]) != key(xs[j]);
    }
    DistinctPermuted(Images(xs, f), Images(ys, f), image);
    forall i, j | 0 <= i < j < |ys| ensures key(ys[i]) != key(ys[j]) {
      assert image(Images(ys, f)[i]) != image(Images(ys, f)[j]);
    }
  }

  lemma DistinctKeyed<T>(xs: seq<T>, id: T -> string, key: T -> Key)
    requires forall x :: key(x) == StrKey(id(x))
    ensures DistinctBy(xs, id) <==> DistinctKeys(xs, key)
  {
    forall i, j | 0 <= i < j < |xs| ensures id(xs[i]) != id(xs[j]) <==> key(xs[i]) != key(xs[j]) {
      if key(xs[i]) == key(xs[j]) { FieldDistinguishes(id(xs[i]), id(xs[j])); }
    }
  }

  lemma SortsAlike<T>(xs: seq<T>, ys: seq<T>, key: T -> Key)
    requires multiset(xs) == multiset(ys) && DistinctKeys(xs, key)
    ensures Sort(xs, key) == Sort(ys, key)
  {
    DistinctPermuted(xs, ys, key);
    SameMembers(xs, ys);
    SortIsCanonical(xs, ys, key);
  }

  /** Sorting and deduplicating by an injective key depends on the set of elements only. */
  lemma SetNormalForm<T>(xs: seq<T>, ys: seq<T>, key: T -> Key)
    requires forall x :: x in xs <==> x in ys
    requires forall x, y :: x in xs && y in xs && key(x) == key(y) ==> x == y
    ensures Dedup(Sort(xs, key)) == Dedup(Sort(ys, key))
    ensures StrictlySorted(Dedup(Sort(xs, key)), key)
    ensures forall x :: x in Dedup(Sort(xs, key)) <==> x in xs
  {
    SetNormalSide(xs, key);
    SetNormalSide(ys, key);
    hide Sort, Dedup;
    StrictlySortedUnique(Dedup(Sort(xs, key)), Dedup(Sort(ys, key)), key);
  }

  lemma SetNormalSide<T>(xs: seq<T>, key: T -> Key)
    requires forall x, y :: x in xs && y in xs && key(x) == key(y) ==> x == y
    ensures StrictlySorted(Dedup(Sort(xs, key)), key)
    ensures forall x :: x in Dedup(Sort(xs, key)) <==> x in xs
  {
    hide Sort, Dedup;
    SortSorts(xs, key);
    forall x, y | x in Sort(xs, key) && y in Sort(xs, key) && key(x) == key(y) ensures x == y {
      SortMember(xs, key, x);
      SortMember(xs, key, y);
    }
    DedupStrict(Sort(xs, key), key);
    forall x ensures x in Dedup(Sort(xs, key)) <==> x in xs {
      DedupMember(Sort(xs, key), x);
      SortMember(xs, key, x);
    }
  }

  lemma AnnotationsNormal(xs: seq<SourceAnnotation>, ys: seq<SourceAnnotation>)
    requires forall x :: x in xs <==> x in ys
    ensures Dedup(Sort(xs, AnnotationKey)) == Dedup(Sort(ys, AnnotationKey))
    ensures StrictlySorted(Dedup(Sort(xs, AnnotationKey)), AnnotationKey)
    ensures forall x :: x in Dedup(Sort(xs, AnnotationKey)) <==> x in xs
  {
    forall x, y | AnnotationKey(x) == AnnotationKey(y) ensures x == y { AnnotationKeyInjective(x, y); }
    SetNormalForm(xs, ys, AnnotationKey);
  }

  lemma DiagnosticsNormal(xs: seq<Diagnostic>, ys: seq<Diagnostic>)
    requires forall x :: x in xs <==> x in ys
    ensures Dedup(Sort(xs, DiagnosticKey)) == Dedup(Sort(ys, DiagnosticKey))
    ensures StrictlySorted(Dedup(Sort(xs, DiagnosticKey)), DiagnosticKey)
    ensures forall x :: x in Dedup(Sort(xs, DiagnosticKey)) <==> x in xs
  {
    forall x, y | DiagnosticKey(x) == DiagnosticKey(y) ensures x == y { DiagnosticKeyInjective(x, y); }
    SetNormalForm(xs, ys, DiagnosticKey);
  }

  // ---------------------------------------------------------------- content is kept

  lemma NormalNodeContent(n: Node)
    ensures OfNode(NormalNode(n)) == OfNode(n)
  {
    AnnotationsNormal(n.annotations, n.annotations);
  }

  lemma NormalMachineContent(m: StateMachine)
    ensures OfMachine(NormalMachine(m)) == OfMachine(m)
  {
    SortSorts(m.states, StateKey);
    SortSorts(m.transitions, TransitionKey);
  }

  /** `normalize` only reorders: it is a reordering of its input, for every IR. */
  lemma NormalizeKeepsContent(ir: RustBehaviorIr)
    ensures Reordering(Normalized(ir), ir)
  {
    SortSorts(ir.sources, SourceKey);
    SortSorts(ir.edges, EdgeKey);
    DiagnosticsNormal(ir.diagnostics, ir.diagnostics);
    var nodes, machines := Sort(ir.nodes, NodeKey), Sort(ir.machines, MachineKey);
    SortSorts(ir.nodes, NodeKey);
    SortSorts(ir.machines, MachineKey);
    ImagesPermuted(nodes, ir.nodes, OfNode);
    ImagesPermuted(machines, ir.machines, OfMachine);
    hide NormalNode, NormalMachine, OfNode, OfMachine, Sort, Dedup;
    forall i | 0 <= i < |nodes| ensures OfNode(Each(nodes, NormalNode)[i]) == OfNode(nodes[i]) {
      NormalNodeContent(nodes[i]);
    }
    forall i | 0 <= i < |machines| ensures OfMachine(Each(machines, NormalMachine)[i]) == OfMachine(machines[i]) {
      NormalMachineContent(machines[i]);
    }
    assert Images(Each(nodes, NormalNode), OfNode) == Images(nodes, OfNode);
    assert Images(Each(machines, NormalMachine), OfMachine) == Images(machines, OfMachine);
  }

  // ---------------------------------------------------------------- idempotence

  lemma NormalNodeTwice(n: Node)
    ensures NormalNode(NormalNode(n)) == NormalNode(n)
  {
    AnnotationsNormal(n.annotations, n.annotations);
    AnnotationsNormal(n.annotations, NormalNode(n).annotations);
  }

  lemma NormalMachineTwice(m: StateMachine)
    ensures NormalMachine(NormalMachine(m)) == NormalMachine(m)
  {
    SortSorts(m.states, StateKey);
    SortSorts(m.transitions, TransitionKey);
    SortOfSorted(Sort(m.states, StateKey), StateKey);
    SortOfSorted(Sort(m.transitions, TransitionKey), TransitionKey);
  }

  lemma EachTwice<T>(xs: seq<T>, f: T -> T, key: T -> Key)
    requires forall x :: f(f(x)) == f(x) && key(f(x)) == key(x)
    ensures var ys := Each(Sort(xs, key), f);
            Each(Sort(ys, key), f) == ys
  {
    var ys := Each(Sort(xs, key), f);
    SortSorts(xs, key);
    forall i, j | 0 <= i < j < |ys| ensures Le(key(ys[i]), key(ys[j])) {
      assert Le(key(Sort(xs, key)[i]), key(Sort(xs, key)[j]));
    }
    SortOfSorted(ys, key);
  }

  /** Normalizing twice is normalizing once, for every IR; this rests on the sorts being stable. */
  lemma NormalizeIdempotent(ir: RustBehaviorIr)
    ensures Normalized(Normalized(ir)) == Normalized(ir)
  {
    SortSorts(ir.sources, SourceKey);
    SortOfSorted(Sort(ir.sources, SourceKey), SourceKey);
    SortSorts(ir.edges, EdgeKey);
    SortOfSorted(Sort(ir.edges, EdgeKey), EdgeKey);
    DiagnosticsNormal(ir.diagnostics, ir.diagnostics);
    DiagnosticsNormal(ir.diagnostics, Dedup(Sort(ir.diagnostics, DiagnosticKey)));
    forall n: Node ensures NormalNode(NormalNode(n)) == NormalNode(n) && NodeKey(NormalNode(n)) == NodeKey(n) {
      NormalNodeTwice(n);
    }
    forall m: StateMachine
      ensures NormalMachine(NormalMachine(m)) == NormalMachine(m) && MachineKey(NormalMachine(m)) == MachineKey(m)
    {
      NormalMachineTwice(m);
    }
    EachTwice(ir.nodes, NormalNode, NodeKey);
    EachTwice(ir.machines, NormalMachine, MachineKey);
  }

  // ---------------------------------------------------------------- the verdict is kept

  ghost predicate SameElements<T(!new)>(xs: seq<T>, ys: seq<T>) {
    forall x :: x in xs <==> x in ys
  }

  lemma AnchorKept(xs: seq<SourceFile>, ys: seq<SourceFile>, a: Anchor)
    requires SameElements(xs, ys)
    ensures AnchorOk(xs, a) == AnchorOk(ys, a)
  {
    hide SpanOk;
  }

  lemma OptAnchorKept(xs: seq<SourceFile>, ys: seq<SourceFile>, a: Option<Anchor>)
    requires SameElements(xs, ys)
    ensures OptAnchorOk(xs, a) == OptAnchorOk(ys, a)
  {
    if a.Some? { AnchorKept(xs, ys, a.value); }
  }

  lemma NodeKept(xs: seq<SourceFile>, ys: seq<SourceFile>, m: Node, n: Node)
    requires SameElements(xs, ys) && OfNode(m) == OfNode(n) && NodeOk(xs, m)
    ensures NodeOk(ys, n)
  {
    OptAnchorKept(xs, ys, n.anchor);
    forall a | a in n.annotations ensures AnnotationOk(ys, a) {
      assert a in OfNode(n).annotations;
      assert a in m.annotations;
      AnchorKept(xs, ys, a.anchor);
      hide AnchorOk, SpanIs, AttributeText, Nonempty;
      assert AnnotationOk(xs, a);
    }
  }

  lemma StatesKept(m: StateMachine, n: StateMachine)
    requires OfMachine(m) == OfMachine(n)
    ensures SameElements(m.states, n.states) && SameElements(m.transitions, n.transitions)
    ensures StateIds(m.states) == StateIds(n.states)
  {
    SameMembers(m.states, n.states);
    SameMembers(m.transitions, n.transitions);
    hide Nonempty;
  }

  /** The last declaration of a state id is its only one, so looking it up is looking for any. */
  lemma {:induction false} LastIsAny(states: seq<MachineState>, id: string)
    requires DistinctKeys(states, StateKey) && Nonempty(id)
    ensures LastTerminal(states, id) <==> exists s :: s in states && s.id == id && s.terminal
  {
    hide Nonempty, StrKey;
    if states != [] {
      var rest, last := states[..|states| - 1], states[|states| - 1];
      assert states == rest + [last];
      LastIsAny(rest, id);
      if last.id == id {
        forall s | s in rest ensures s.id != id {
          var k :| 0 <= k < |rest| && rest[k] == s;
          assert StateKey(states[k]) != StateKey(last);
        }
      }
    }
  }

  lemma StateKeysDistinct(m: StateMachine)
    ensures (forall i :: 0 <= i < |m.states| ==> StateOk(m, i))
            <==> DistinctKeys(m.states, StateKey) && forall s :: s in m.states ==> Nonempty(s.id)
  {
    hide Nonempty;
    if forall i :: 0 <= i < |m.states| ==> StateOk(m, i) {
      forall i, j | 0 <= i < j < |m.states| ensures StateKey(m.states[i]) != StateKey(m.states[j]) {
        assert StateOk(m, j);
        if StateKey(m.states[i]) == StateKey(m.states[j]) { FieldDistinguishes(m.states[i].id, m.states[j].id); }
      }
      forall s | s in m.states ensures Nonempty(s.id) {
        var i :| 0 <= i < |m.states| && m.states[i] == s;
        assert StateOk(m, i);
      }
    }
    if DistinctKeys(m.states, StateKey) && forall s :: s in m.states ==> Nonempty(s.id) {
      forall i | 0 <= i < |m.states| ensures StateOk(m, i) {
        forall j | 0 <= j < i ensures m.states[j].id != m.states[i].id {
          assert StateKey(m.states[j]) != StateKey(m.states[i]);
        }
      }
    }
  }

  /** One transition taken alone. */
  ghost predicate TransitionSound(m: StateMachine, t: Transition) {
    && Nonempty(t.id) && t.from in StateIds(m.states) && t.to in StateIds(m.states) && !IsTerminal(m, t.from)
    && Nonempty(t.event) && Filled(t.guard) && Filled(t.effect)
  }

  /** No two unguarded transitions leave one state on one event. */
  ghost predicate Unambiguous(ts: seq<Transition>) {
    forall s, t :: s in ts && t in ts && SameUnguarded(s, t) && t.guard.None? ==> s == t
  }

  lemma TransitionsValid(m: StateMachine)
    requires DistinctKeys(m.states, StateKey)
    ensures (forall i :: 0 <= i < |m.transitions| ==> TransitionOk(m, i))
            <==> && DistinctKeys(m.transitions, TransitionKey) && Unambiguous(m.transitions)
                 && forall t :: t in m.transitions ==> TransitionSound(m, t)
  {
    forall t ensures TransitionAlone(m, t) <==> TransitionSound(m, t) { TransitionAloneSound(m, t); }
    hide TransitionSound, TransitionAlone, SameUnguarded;
    var ts := m.transitions;
    if forall i :: 0 <= i < |ts| ==> TransitionOk(m, i) {
      forall i, j | 0 <= i < j < |ts|
        ensures TransitionKey(ts[i]) != TransitionKey(ts[j]) && (ts[j].guard.None? ==> !SameUnguarded(ts[i], ts[j]))
      {
        TransitionOkParts(m, j);
        assert TransitionOk(m, j);
        if TransitionKey(ts[i]) == TransitionKey(ts[j]) { FieldDistinguishes(ts[i].id, ts[j].id); }
      }
      forall i | 0 <= i < |ts| ensures TransitionAlone(m, ts[i]) {
        TransitionOkParts(m, i);
        assert TransitionOk(m, i);
      }
      UnambiguousByIndex(ts);
    }
    if DistinctKeys(ts, TransitionKey) && Unambiguous(ts) && forall t :: t in ts ==> TransitionSound(m, t) {
      forall i | 0 <= i < |ts| ensures TransitionOk(m, i) {
        TransitionOkParts(m, i);
        forall j | 0 <= j < i
          ensures ts[j].id != ts[i].id && (ts[i].guard.None? ==> !SameUnguarded(ts[j], ts[i]))
        {
          assert TransitionKey(ts[j]) != TransitionKey(ts[i]);
        }
      }
    }
  }

  lemma UnambiguousByIndex(ts: seq<Transition>)
    requires forall i, j :: 0 <= i < j < |ts| && ts[j].guard.None? ==> !SameUnguarded(ts[i], ts[j])
    ensures Unambiguous(ts)
  {
    forall s, t | s in ts && t in ts && SameUnguarded(s, t) && t.guard.None? ensures s == t {
      var i :| 0 <= i < |ts| && ts[i] == s;
      var j :| 0 <= j < |ts| && ts[j] == t;
      assert SameUnguarded(ts[i], ts[j]) && SameUnguarded(ts[j], ts[i]);
    }
  }

  ghost predicate TransitionAlone(m: StateMachine, t: Transition) {
    && Nonempty(t.id) && t.from in StateIds(m.states) && t.to in StateIds(m.states) && !LastTerminal(m.states, t.from)
    && Nonempty(t.event) && Filled(t.guard) && Filled(t.effect)
  }

  lemma TransitionAloneSound(m: StateMachine, t: Transition)
    requires DistinctKeys(m.states, StateKey)
    ensures TransitionAlone(m, t) <==> TransitionSound(m, t)
  {
    if t.from in StateIds(m.states) { LastIsAny(m.states, t.from); }
    hide LastTerminal, Nonempty, Filled;
  }

  lemma TransitionOkParts(m: StateMachine, i: nat)
    requires i < |m.transitions|
    ensures var t := m.transitions[i];
            TransitionOk(m, i) <==>
              && TransitionAlone(m, t)
              && (forall j :: 0 <= j < i ==> m.transitions[j].id != t.id)
              && (t.guard.None? ==> forall j :: 0 <= j < i ==> !SameUnguarded(m.transitions[j], t))
  {
    hide LastTerminal, Nonempty, Filled, StateIds, SameUnguarded;
  }

  lemma MachineValidKept(m: StateMachine, n: StateMachine)
    requires OfMachine(m) == OfMachine(n) && MachineValid(m)
    ensures MachineValid(n)
  {
    StatesKept(m, n);
    StateKeysDistinct(m);
    StateKeysDistinct(n);
    DistinctPermuted(m.states, n.states, StateKey);
    TransitionsValid(m);
    TransitionsValid(n);
    DistinctPermuted(m.transitions, n.transitions, TransitionKey);
    forall t | t in n.transitions ensures TransitionSound(n, t) {
      assert TransitionSound(m, t);
      hide Nonempty, Filled;
    }
    hide TransitionSound, StateOk, TransitionOk, Nonempty, SameUnguarded;
  }

  lemma MachineKept(xs: seq<SourceFile>, ys: seq<SourceFile>, m: StateMachine, n: StateMachine)
    requires SameElements(xs, ys) && OfMachine(m) == OfMachine(n) && MachineOk(xs, m)
    ensures MachineOk(ys, n)
  {
    MachineValidKept(m, n);
    StatesKept(m, n);
    forall s | s in n.states ensures s.anchor.Some? && AnchorOk(ys, s.anchor.value) {
      assert s in m.states;
      AnchorKept(xs, ys, s.anchor.value);
    }
    forall t | t in n.transitions ensures t.anchor.Some? && AnchorOk(ys, t.anchor.value) {
      assert t in m.transitions;
      AnchorKept(xs, ys, t.anchor.value);
    }
  }

  lemma SourcesKept(a: RustBehaviorIr, b: RustBehaviorIr, digest: string -> string)
    requires Reordering(a, b)
    ensures SameElements(a.sources, b.sources)
    ensures SourcesValid(a.sources, digest) ==> SourcesValid(b.sources, digest)
  {
    hide SourceOk;
    assert OfIr(a).sources == OfIr(b).sources;
    SameMembers(a.sources, b.sources);
    DistinctKeyed(a.sources, SourcePath, SourceKey);
    DistinctKeyed(b.sources, SourcePath, SourceKey);
    if SourcesValid(a.sources, digest) { DistinctPermuted(a.sources, b.sources, SourceKey); }
  }

  lemma DiagnosticsKept(a: RustBehaviorIr, b: RustBehaviorIr)
    requires Reordering(a, b) && SameElements(a.sources, b.sources) && DiagnosticsValid(a)
    ensures DiagnosticsValid(b)
  {
    hide Nonempty, OptAnchorOk;
    forall d | d in b.diagnostics ensures DiagnosticOk(b.sources, d) {
      assert d in OfIr(b).diagnostics;
      assert d in a.diagnostics;
      OptAnchorKept(a.sources, b.sources, d.anchor);
    }
  }

  lemma NodesKept(a: RustBehaviorIr, b: RustBehaviorIr)
    requires Reordering(a, b) && SameElements(a.sources, b.sources) && NodesValid(a)
    ensures NodesValid(b)
  {
    hide NodeOk;
    assert OfIr(a).nodes == OfIr(b).nodes;
    forall n | n in b.nodes ensures NodeOk(b.sources, n) {
      var m := ImageOf(b.nodes, a.nodes, OfNode, n);
      NodeKept(a.sources, b.sources, m, n);
    }
    DistinctKeyed(a.nodes, NodeId, NodeKey);
    DistinctKeyed(b.nodes, NodeId, NodeKey);
    DistinctImages(a.nodes, b.nodes, OfNode, NodeKey, (c: NodeContent) => StrKey(c.id));
  }

  /** A declared id and its kind do not depend on the order of the nodes. */
  lemma NodeLookupKept(a: RustBehaviorIr, b: RustBehaviorIr)
    requires Reordering(a, b)
    ensures NodeIds(a.nodes) == NodeIds(b.nodes)
    ensures forall e :: EndpointsOk(a.nodes, e) ==> EndpointsOk(b.nodes, e)
  {
    assert OfIr(a).nodes == OfIr(b).nodes;
    forall id | id in NodeIds(a.nodes) ensures id in NodeIds(b.nodes) {
      var n :| n in a.nodes && n.id == id;
      var m := ImageOf(a.nodes, b.nodes, OfNode, n);
    }
    forall id | id in NodeIds(b.nodes) ensures id in NodeIds(a.nodes) {
      var n :| n in b.nodes && n.id == id;
      var m := ImageOf(b.nodes, a.nodes, OfNode, n);
    }
    forall e | EndpointsOk(a.nodes, e) ensures EndpointsOk(b.nodes, e) {
      var f, t :| f in a.nodes && t in a.nodes && f.id == e.from && t.id == e.to && Compatible(e, f.kind, t.kind);
      var f' := ImageOf(a.nodes, b.nodes, OfNode, f);
      var t' := ImageOf(a.nodes, b.nodes, OfNode, t);
    }
  }

  lemma EdgesKept(a: RustBehaviorIr, b: RustBehaviorIr)
    requires Reordering(a, b) && SameElements(a.sources, b.sources)
    ensures ContainmentEdges(a) == ContainmentEdges(b)
    ensures EdgesValid(a) ==> EdgesValid(b)
  {
    NodeLookupKept(a, b);
    assert OfIr(a).edges == OfIr(b).edges;
    SameMembers(a.edges, b.edges);
    hide EndpointsOk, AnchorOk, Nonempty, Filled, Owns, SingleParent, OfIr;
    DistinctKeyed(a.edges, EdgeId, EdgeKey);
    DistinctKeyed(b.edges, EdgeId, EdgeKey);
    if EdgesValid(a) {
      DistinctPermuted(a.edges, b.edges, EdgeKey);
      forall e | e in b.edges ensures EdgeOk(b, e) {
        assert EdgeOk(a, e);
        AnchorKept(a.sources, b.sources, e.anchor);
      }
    }
  }

  lemma MachinesKept(a: RustBehaviorIr, b: RustBehaviorIr)
    requires Reordering(a, b) && SameElements(a.sources, b.sources) && MachinesValid(a)
    ensures MachinesValid(b)
  {
    hide MachineOk;
    assert OfIr(a).machines == OfIr(b).machines;
    forall n | n in b.machines ensures MachineOk(b.sources, n) {
      var m := ImageOf(b.machines, a.machines, OfMachine, n);
      MachineKept(a.sources, b.sources, m, n);
    }
    DistinctKeyed(a.machines, MachineId, MachineKey);
    DistinctKeyed(b.machines, MachineId, MachineKey);
    DistinctImages(a.machines, b.machines, OfMachine, MachineKey, (c: MachineContent) => StrKey(c.id));
  }

  lemma VerdictKeptOneWay(a: RustBehaviorIr, b: RustBehaviorIr, digest: string -> string)
    requires Reordering(a, b) && IrValid(a, digest)
    ensures IrValid(b, digest)
  {
    hide SourcesValid, DiagnosticsValid, NodesValid, EdgesValid, MachinesValid, OnCycle, ContainmentEdges;
    SourcesKept(a, b, digest);
    DiagnosticsKept(a, b);
    NodesKept(a, b);
    EdgesKept(a, b);
    MachinesKept(a, b);
  }

  /** The verdict of `ensure_valid` does not depend on the order of anything in the document. */
  lemma VerdictKept(a: RustBehaviorIr, b: RustBehaviorIr, digest: string -> string)
    requires Reordering(a, b)
    ensures IrValid(a, digest) <==> IrValid(b, digest)
  {
    hide IrValid;
    if IrValid(a, digest) { VerdictKeptOneWay(a, b, digest); }
    if IrValid(b, digest) { VerdictKeptOneWay(b, a, digest); }
  }

  /** `normalize` never changes the verdict. */
  lemma NormalizeKeepsVerdict(ir: RustBehaviorIr, digest: string -> string)
    ensures IrValid(Normalized(ir), digest) <==> IrValid(ir, digest)
  {
    NormalizeKeepsContent(ir);
    VerdictKept(Normalized(ir), ir, digest);
  }

  // ---------------------------------------------------------------- one normal form

  lemma NodesAlike(m: Node, n: Node)
    requires OfNode(m) == OfNode(n)
    ensures NormalNode(m) == NormalNode(n)
  {
    forall a ensures a in m.annotations <==> a in n.annotations {
      assert a in m.annotations <==> a in OfNode(m).annotations;
      assert a in n.annotations <==> a in OfNode(n).annotations;
    }
    AnnotationsNormal(m.annotations, n.annotations);
  }

  lemma MachinesAlike(m: StateMachine, n: StateMachine)
    requires OfMachine(m) == OfMachine(n) && MachineValid(m)
    ensures NormalMachine(m) == NormalMachine(n)
  {
    StateKeysDistinct(m);
    TransitionsValid(m);
    SortsAlike(m.states, n.states, StateKey);
    SortsAlike(m.transitions, n.transitions, TransitionKey);
  }

  lemma EachStrict<T>(xs: seq<T>, f: T -> T, key: T -> Key)
    requires DistinctKeys(xs, key) && forall x :: key(f(x)) == key(x)
    ensures var r := Each(Sort(xs, key), f);
            StrictlySorted(r, key) && forall y :: y in r <==> exists x :: x in xs && f(x) == y
  {
    SortedDistinctIsStrict(xs, key);
    var s := Sort(xs, key);
    var r := Each(s, f);
    forall i, j | 0 <= i < j < |r| ensures Le(key(r[i]), key(r[j])) && key(r[i]) != key(r[j]) {
      assert Le(key(s[i]), key(s[j])) && key(s[i]) != key(s[j]);
    }
    forall y ensures y in r <==> exists x :: x in xs && f(x) == y {
      if y in r {
        var i :| 0 <= i < |r| && r[i] == y;
        SortMember(xs, key, s[i]);
      }
      if x :| x in xs && f(x) == y {
        SortMember(xs, key, x);
        var i :| 0 <= i < |s| && s[i] == x;
        assert r[i] == y;
      }
    }
  }

  lemma NodesNormalAlike(a: RustBehaviorIr, b: RustBehaviorIr)
    requires Reordering(a, b) && NodesValid(a) && NodesValid(b)
    ensures Each(Sort(a.nodes, NodeKey), NormalNode) == Each(Sort(b.nodes, NodeKey), NormalNode)
  {
    hide NodeOk;
    assert OfIr(a).nodes == OfIr(b).nodes;
    DistinctKeyed(a.nodes, NodeId, NodeKey);
    DistinctKeyed(b.nodes, NodeId, NodeKey);
    EachStrict(a.nodes, NormalNode, NodeKey);
    EachStrict(b.nodes, NormalNode, NodeKey);
    var x, y := Each(Sort(a.nodes, NodeKey), NormalNode), Each(Sort(b.nodes, NodeKey), NormalNode);
    forall n ensures n in x <==> n in y {
      if m :| m in a.nodes && NormalNode(m) == n {
        var m' := ImageOf(a.nodes, b.nodes, OfNode, m);
        NodesAlike(m, m');
      }
      if m :| m in b.nodes && NormalNode(m) == n {
        var m' := ImageOf(b.nodes, a.nodes, OfNode, m);
        NodesAlike(m, m');
      }
    }
    StrictlySortedUnique(x, y, NodeKey);
  }

  lemma MachinesNormalAlike(a: RustBehaviorIr, b: RustBehaviorIr)
    requires Reordering(a, b) && MachinesValid(a) && MachinesValid(b)
    ensures Each(Sort(a.machines, MachineKey), NormalMachine) == Each(Sort(b.machines, MachineKey), NormalMachine)
  {
    hide MachineValid;
    assert OfIr(a).machines == OfIr(b).machines;
    DistinctKeyed(a.machines, MachineId, MachineKey);
    DistinctKeyed(b.machines, MachineId, MachineKey);
    EachStrict(a.machines, NormalMachine, MachineKey);
    EachStrict(b.machines, NormalMachine, MachineKey);
    var x, y := Each(Sort(a.machines, MachineKey), NormalMachine), Each(Sort(b.machines, MachineKey), NormalMachine);
    forall n ensures n in x <==> n in y {
      if m :| m in a.machines && NormalMachine(m) == n {
        var m' := ImageOf(a.machines, b.machines, OfMachine, m);
        assert MachineOk(a.sources, m);
        MachinesAlike(m, m');
      }
      if m :| m in b.machines && NormalMachine(m) == n {
        var m' := ImageOf(b.machines, a.machines, OfMachine, m);
        assert MachineOk(b.sources, m);
        MachinesAlike(m, m');
      }
    }
    StrictlySortedUnique(x, y, MachineKey);
  }

  /** The normal form of an accepted IR is a complete invariant of its content: two documents are
      reorderings of each other if and only if they normalize to the same value. */
  lemma NormalFormIff(a: RustBehaviorIr, b: RustBehaviorIr, digest: string -> string)
    requires IrValid(a, digest)
    ensures Reordering(a, b) <==> Normalized(a) == Normalized(b)
  {
    NormalizeKeepsContent(a);
    NormalizeKeepsContent(b);
    if Reordering(a, b) {
      VerdictKept(a, b, digest);
      assert OfIr(a).sources == OfIr(b).sources && OfIr(a).edges == OfIr(b).edges;
      DistinctKeyed(a.sources, SourcePath, SourceKey);
      DistinctKeyed(a.edges, EdgeId, EdgeKey);
      SortsAlike(a.sources, b.sources, SourceKey);
      SortsAlike(a.edges, b.edges, EdgeKey);
      forall d ensures d in a.diagnostics <==> d in b.diagnostics {
        assert d in a.diagnostics <==> d in OfIr(a).diagnostics;
        assert d in b.diagnostics <==> d in OfIr(b).diagnostics;
      }
      DiagnosticsNormal(a.diagnostics, b.diagnostics);
      NodesNormalAlike(a, b);
      MachinesNormalAlike(a, b);
    }
  }

  // ---------------------------------------------------------------- the order itself

  /** Each two elements in the given order, equal names in any. */
  ghost predicate Ascending<T>(xs: seq<T>, name: T -> string) {
    forall i, j :: 0 <= i < j < |xs| ==> name(xs[i]) == name(xs[j]) || Before(name(xs[i]), name(xs[j]))
  }

  lemma KeysAscend<T>(a: T, b: T, name: T -> string, key: T -> Key)
    requires key(a) == StrKey(name(a)) && key(b) == StrKey(name(b)) && Le(key(a), key(b))
    ensures name(a) == name(b) || Before(name(a), name(b))
  {
    StringOrder(name(a), name(b));
  }

  lemma SortedAscends<T>(xs: seq<T>, name: T -> string, key: T -> Key)
    requires forall x :: x in xs ==> key(x) == StrKey(name(x))
    ensures Ascending(Sort(xs, key), name)
  {
    var ys := Sort(xs, key);
    SortSorts(xs, key);
    forall i, j | 0 <= i < j < |ys| ensures name(ys[i]) == name(ys[j]) || Before(name(ys[i]), name(ys[j])) {
      SortMember(xs, key, ys[i]);
      SortMember(xs, key, ys[j]);
      KeysAscend(ys[i], ys[j], name, key);
    }
  }

  const StateId := (s: MachineState) => s.id
  const TransitionId := (t: Transition) => t.id

  /** The normal form has the sources by path, the nodes, edges and machines by id, and in each machine the
      states and transitions by id. */
  lemma NormalizedAscends(ir: RustBehaviorIr)
    ensures var n := Normalized(ir);
            && Ascending(n.sources, SourcePath) && Ascending(n.nodes, NodeId) && Ascending(n.edges, EdgeId)
            && Ascending(n.machines, MachineId)
            && forall m :: m in n.machines ==> Ascending(m.states, StateId) && Ascending(m.transitions, TransitionId)
  {
    var n := Normalized(ir);
    SortedAscends(ir.sources, SourcePath, SourceKey);
    SortedAscends(ir.nodes, NodeId, NodeKey);
    SortedAscends(ir.edges, EdgeId, EdgeKey);
    SortedAscends(ir.machines, MachineId, MachineKey);
    hide Sort, Before, Dedup;
    forall m | m in n.machines ensures Ascending(m.states, StateId) && Ascending(m.transitions, TransitionId) {
      var i :| 0 <= i < |n.machines| && n.machines[i] == m;
      var o := Sort(ir.machines, MachineKey)[i];
      assert m == NormalMachine(o);
      SortedAscends(o.states, StateId, StateKey);
      SortedAscends(o.transitions, TransitionId, TransitionKey);
    }
  }

  /** Annotations and diagnostics come in their derived orders, each once. */
  lemma NormalizedLists(ir: RustBehaviorIr)
    ensures var ds := Normalized(ir).diagnostics;
            forall i, j :: 0 <= i < j < |ds| ==> DiagnosticLe(ds[i], ds[j]) && ds[i] != ds[j]
    ensures forall n :: n in Normalized(ir).nodes ==> AnnotationsOrdered(n.annotations)
  {
    var ds := Normalized(ir).diagnostics;
    DiagnosticsStrict(ir.diagnostics);
    forall i, j | 0 <= i < j < |ds| ensures DiagnosticLe(ds[i], ds[j]) && ds[i] != ds[j] {
      DiagnosticOrder(ds[i], ds[j]);
      hide DiagnosticKey, DiagnosticLe, Sort, Dedup;
    }
    forall n | n in Normalized(ir).nodes ensures AnnotationsOrdered(n.annotations) {
      hide AnnotationsOrdered, Sort, Dedup;
      var i :| 0 <= i < |Normalized(ir).nodes| && Normalized(ir).nodes[i] == n;
      AnnotationsStrict(Sort(ir.nodes, NodeKey)[i].annotations);
    }
  }

  ghost predicate AnnotationsOrdered(xs: seq<SourceAnnotation>) {
    forall i, j :: 0 <= i < j < |xs| ==> AnnotationLe(xs[i], xs[j]) && xs[i] != xs[j]
  }

  lemma DiagnosticsStrict(xs: seq<Diagnostic>)
    ensures StrictlySorted(Dedup(Sort(xs, DiagnosticKey)), DiagnosticKey)
  {
    SortSorts(xs, DiagnosticKey);
    forall x, y | DiagnosticKey(x) == DiagnosticKey(y) ensures x == y { DiagnosticKeyInjective(x, y); }
    DedupStrict(Sort(xs, DiagnosticKey), DiagnosticKey);
  }

  lemma AnnotationsStrict(xs: seq<SourceAnnotation>)
    ensures AnnotationsOrdered(Dedup(Sort(xs, AnnotationKey)))
  {
    var ys := Dedup(Sort(xs, AnnotationKey));
    SortSorts(xs, AnnotationKey);
    forall x, y | AnnotationKey(x) == AnnotationKey(y) ensures x == y { AnnotationKeyInjective(x, y); }
    DedupStrict(Sort(xs, AnnotationKey), AnnotationKey);
    hide AnnotationKey, AnnotationLe, Sort, Dedup;
    forall i, j | 0 <= i < j < |ys| ensures AnnotationLe(ys[i], ys[j]) && ys[i] != ys[j] {
      AnnotationOrder(ys[i], ys[j]);
    }
  }

  /** Reordering a machine's table, as `normalize` does, leaves it a reordering in the sense of the
      runtime: every run ends in the same configuration, and every step of it succeeds with the same
      entry or fails, with the same kind of error if no guard can fail. */
  lemma NormalMachineRuns<World(!new)>(m: StateMachine, b: Bindings<World>, world: World, events: seq<string>)
    ensures var (c, rs) := Run(NormalMachine(m), b, Start(NormalMachine(m), world), events);
            var (d, ss) := Run(m, b, Start(m, world), events);
            && c == d && |rs| == |ss| == |events|
            && forall i :: 0 <= i < |rs| ==> Agree(rs[i], ss[i], GuardsTotal(b))
  {
    SortSorts(m.states, StateKey);
    SortSorts(m.transitions, TransitionKey);
    RunReordered(NormalMachine(m), m, b, Start(m, world), events);
  }

  // ---------------------------------------------------------------- the one difference it can make

  predicate Below(a: Key, b: Key) {
    Le(a, b) && a != b
  }

  /** Two enabled transitions have ids below that of every transition whose guard fails. */
  ghost predicate TwoBelowFailure<World>(ts: seq<Transition>, q: Query<World>) {
    exists t, u :: t in ts && u in ts && t != u && q.Enabled(t) && q.Enabled(u) && BelowFailures(ts, q, t)
      && BelowFailures(ts, q, u)
  }

  ghost predicate BelowFailures<World>(ts: seq<Transition>, q: Query<World>, t: Transition) {
    forall f :: f in ts && q.Fails(f) ==> Below(TransitionKey(t), TransitionKey(f))
  }

  lemma SortedAmbiguity<World>(ts: seq<Transition>, us: seq<Transition>, q: Query<World>)
    requires StrictlySorted(us, TransitionKey) && forall t :: t in us <==> t in ts
    ensures TwoBeforeFailure(us, q) <==> TwoBelowFailure(ts, q)
  {
    hide TransitionKey, Le;
    if i, j :| 0 <= i < j < |us| && q.Enabled(us[i]) && q.Enabled(us[j]) && NoFailureUpTo(us, q, 0, j) {
      BeforeIsBelow(ts, us, q, i, j);
      BeforeIsBelow(ts, us, q, j, j);
      assert us[i] in us && us[j] in us && us[i] != us[j];
    }
    if TwoBelowFailure(ts, q) {
      var t, u :| t in ts && u in ts && t != u && q.Enabled(t) && q.Enabled(u)
                  && BelowFailures(ts, q, t) && BelowFailures(ts, q, u);
      assert t in us && u in us;
      var i :| 0 <= i < |us| && us[i] == t;
      var j :| 0 <= j < |us| && us[j] == u;
      BelowIsBefore(ts, us, q, i);
      BelowIsBefore(ts, us, q, j);
      if i < j { assert TwoBeforeFailure(us, q); } else { assert NoFailureUpTo(us, q, 0, i); }
    }
  }

  lemma BeforeIsBelow<World>(ts: seq<Transition>, us: seq<Transition>, q: Query<World>, i: nat, j: nat)
    requires StrictlySorted(us, TransitionKey) && forall t :: t in us <==> t in ts
    requires i <= j < |us| && q.Enabled(us[j]) && q.Enabled(us[i]) && NoFailureUpTo(us, q, 0, j)
    ensures BelowFailures(ts, q, us[i])
  {
    hide TransitionKey, Le;
    forall f | f in ts && q.Fails(f) ensures Below(TransitionKey(us[i]), TransitionKey(f)) {
      assert f in us;
      var k :| 0 <= k < |us| && us[k] == f;
      assert k > j;
    }
  }

  lemma BelowIsBefore<World>(ts: seq<Transition>, us: seq<Transition>, q: Query<World>, i: nat)
    requires StrictlySorted(us, TransitionKey) && forall t :: t in us <==> t in ts
    requires i < |us| && BelowFailures(ts, q, us[i])
    ensures NoFailureUpTo(us, q, 0, i)
  {
    hide TransitionKey, Le;
    forall k | 0 <= k < i ensures !q.Fails(us[k]) {
      assert us[k] in ts;
      if q.Fails(us[k]) { LeAntisymmetric(TransitionKey(us[k]), TransitionKey(us[i])); }
    }
  }

  lemma TransitionsDistinct(m: StateMachine)
    requires MachineValid(m)
    ensures DistinctKeys(m.transitions, TransitionKey)
  {
    forall i, j | 0 <= i < j < |m.transitions|
      ensures TransitionKey(m.transitions[i]) != TransitionKey(m.transitions[j]) {
      assert TransitionOk(m, j);
      if TransitionKey(m.transitions[i]) == TransitionKey(m.transitions[j]) {
        FieldDistinguishes(m.transitions[i].id, m.transitions[j].id);
      }
    }
  }

  /** On a valid machine, normalizing changes the kind of what a step selects exactly when two enabled
      transitions stand before the first failing guard in the table but not in the order of ids, or the
      other way round. */
  lemma NormalizeShowsExactly<World>(m: StateMachine, q: Query<World>)
    requires MachineValid(m)
    ensures var n := NormalMachine(m);
            !SameKind(Select(m.transitions, q, 0, None), Select(n.transitions, q, 0, None))
            <==> TwoBeforeFailure(m.transitions, q) != TwoBelowFailure(m.transitions, q)
  {
    var us := Sort(m.transitions, TransitionKey);
    TransitionsDistinct(m);
    SortedDistinctIsStrict(m.transitions, TransitionKey);
    SortKeepsElements(m.transitions, TransitionKey);
    SortSorts(m.transitions, TransitionKey);
    SortedAmbiguity(m.transitions, us, q);
    KindsByAmbiguity(m.transitions, us, q);
    hide SameKind, Select, TwoBeforeFailure, TwoBelowFailure, Sort;
  }

  function Guarded(id: string): Transition {
    Transition(id, "s", "s", "go", Some(id), None, None)
  }

  /** One state with three guarded loops, declared last id first. */
  function Loops(): StateMachine {
    StateMachine("m", "m", "s", [MachineState("s", false, None)], [Guarded("c"), Guarded("b"), Guarded("a")])
  }

  /** The guard `c` fails to evaluate, the others hold. */
  function CFails(): Bindings<()> {
    Bindings(
      (world, name) => if name == "c" then Result.Err("failed") else Result.Ok(true),
      (world, name) => (world, Result.Ok(())))
  }

  lemma LettersNonempty()
    ensures Nonempty("s") && Nonempty("m") && Nonempty("a") && Nonempty("b") && Nonempty("c") && Nonempty("go")
  {
    assert !IsWhitespace("s"[0]) && !IsWhitespace("m"[0]) && !IsWhitespace("a"[0]) && !IsWhitespace("b"[0]);
    assert !IsWhitespace("c"[0]) && !IsWhitespace("go"[0]);
  }

  lemma LoopsValid()
    ensures MachineValid(Loops())
  {
    var m := Loops();
    LettersNonempty();
    assert !LastTerminal(m.states, "s") by { assert m.states[..0] == []; }
    hide Nonempty, LastTerminal;
    assert m.states[0] in m.states && m.states[0].id == "s";
    assert "s" in StateIds(m.states);
    hide StateIds;
  }

  lemma LoopsNormal()
    ensures NormalMachine(Loops()).transitions == [Guarded("a"), Guarded("b"), Guarded("c")]
    ensures NormalMachine(Loops()).states == Loops().states
  {
    var ts, us := Loops().transitions, [Guarded("a"), Guarded("b"), Guarded("c")];
    LoopKeys();
    hide Sort, TransitionKey, Guarded;
    SortIsCanonical(ts, us, TransitionKey);
    SortOfSorted(us, TransitionKey);
    SortOfSorted(Loops().states, StateKey);
  }

  lemma LoopKeys()
    ensures var a, b, c := Guarded("a"), Guarded("b"), Guarded("c");
            StrictlySorted([a, b, c], TransitionKey) && DistinctKeys([c, b, a], TransitionKey)
  {
    var a, b, c := TransitionKey(Guarded("a")), TransitionKey(Guarded("b")), TransitionKey(Guarded("c"));
    assert a[0] == 'a' as int && b[0] == 'b' as int && c[0] == 'c' as int;
    hide StrKey, Guarded;
    FirstDecides(a, b);
    FirstDecides(b, c);
    FirstDecides(a, c);
  }

  lemma FirstDecides(a: Key, b: Key)
    requires a != [] && b != [] && a[0] < b[0]
    ensures Le(a, b) && a != b
  {
  }

  /** A valid machine whose table reports a failing guard as declared, and an ambiguity once
      normalized. */
  lemma NormalizeCanShow()
    ensures MachineValid(Loops())
    ensures StepConfig(Loops(), CFails(), Start(Loops(), ()), "go").1 == Err(GuardError("c", "failed"))
    ensures StepConfig(NormalMachine(Loops()), CFails(), Start(NormalMachine(Loops()), ()), "go").1
            == Err(Ambiguous("s", "go"))
  {
    LoopsValid();
    LoopsNormal();
    assert !IsTerminal(Loops(), "s") && !IsTerminal(NormalMachine(Loops()), "s");
    LoopsRun();
    hide NormalMachine, Select;
  }

  lemma LoopsRun()
    ensures var q := Query("s", "go", CFails(), ());
            && Select([Guarded("c"), Guarded("b"), Guarded("a")], q, 0, None) == GuardFailed("c", "failed")
            && Select([Guarded("a"), Guarded("b"), Guarded("c")], q, 0, None) == TwoEnabled
  {
    var q := Query("s", "go", CFails(), ());
    var us := [Guarded("a"), Guarded("b"), Guarded("c")];
    assert q.Verdict(Guarded("c")) == Err("failed") && q.Verdict(us[0]) == Ok(true) && q.Verdict(us[1]) == Ok(true);
    assert Select(us, q, 0, None) == Select(us, q, 1, Some(us[0])) == TwoEnabled;
  }
}
