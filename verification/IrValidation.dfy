/** `RustBehaviorIr::validate` and `ensure_valid` (`crates/kr0ki-behavior/src/validation.rs`). */
module IrValidation {
  import opened BehaviorIr
  import opened Containment
  import opened Forest
  import opened Graph
  import opened MachineValidation
  import opened Ordering
  import opened SourceText
  import opened Wrappers

  // ---------------------------------------------------------------- text

  predicate IsHex(s: string, lengths: set<nat>) {
    |s| in lengths && forall k :: 0 <= k < |s| ==> '0' <= s[k] <= '9' || 'a' <= s[k] <= 'f'
  }

  // ---------------------------------------------------------------- what an accepted IR satisfies

  const SCHEMA_VERSION: nat := 1

  ghost predicate DistinctBy<T>(xs: seq<T>, id: T -> string) {
    forall i, j :: 0 <= i < j < |xs| ==> id(xs[i]) != id(xs[j])
  }

  const SourcePath := (s: SourceFile) => s.path
  const NodeId := (n: Node) => n.id
  const EdgeId := (e: Edge) => e.id
  const MachineId := (m: StateMachine) => m.id

  ghost predicate HeaderValid(ir: RustBehaviorIr) {
    && ir.schemaVersion == SCHEMA_VERSION
    && IsHex(ir.provenance.revision, {40, 64}) && IsHex(ir.provenance.treeDigest, {64})
    && Nonempty(ir.provenance.extractor) && Nonempty(ir.provenance.toolchain)
  }

  predicate SourceOk(s: SourceFile, digest: string -> string) {
    RelativePath(s.path) && IsHex(s.sha256, {64}) && digest(s.content) == s.sha256
  }

  ghost predicate SourcesValid(sources: seq<SourceFile>, digest: string -> string) {
    DistinctBy(sources, SourcePath) && forall s :: s in sources ==> SourceOk(s, digest)
  }

  predicate SpanOk(s: SourceFile, a: Anchor) {
    && Nonempty(a.symbol) && a.start <= a.end && a.end <= ByteLen(s.content)
    && IsCharBoundary(s.content, a.start) && IsCharBoundary(s.content, a.end)
  }

  /** The anchor names a declared source and a span of whole characters in it. */
  ghost predicate AnchorOk(sources: seq<SourceFile>, a: Anchor) {
    exists s :: s in sources && s.path == a.file && SpanOk(s, a)
  }

  ghost predicate OptAnchorOk(sources: seq<SourceFile>, a: Option<Anchor>) {
    a.Some? ==> AnchorOk(sources, a.value)
  }

  ghost predicate DiagnosticOk(sources: seq<SourceFile>, d: Diagnostic) {
    d.severity != Error && Nonempty(d.code) && Nonempty(d.message) && OptAnchorOk(sources, d.anchor)
  }

  ghost predicate DiagnosticsValid(ir: RustBehaviorIr) {
    forall d :: d in ir.diagnostics ==> DiagnosticOk(ir.sources, d)
  }

  predicate AttributeText(s: string) {
    "#[" <= s || "#![" <= s
  }

  ghost predicate AnnotationOk(sources: seq<SourceFile>, a: SourceAnnotation) {
    && AnchorOk(sources, a.anchor) && Nonempty(a.path) && AttributeText(a.text)
    && exists s :: s in sources && s.path == a.anchor.file && SpanIs(s.content, a.anchor.start, a.anchor.end, a.text)
  }

  ghost predicate NodeOk(sources: seq<SourceFile>, n: Node) {
    && Nonempty(n.id) && Nonempty(n.name)
    && (n.anchor.None? ==> n.kind == External) && OptAnchorOk(sources, n.anchor)
    && forall a :: a in n.annotations ==> AnnotationOk(sources, a)
  }

  ghost predicate NodesValid(ir: RustBehaviorIr) {
    DistinctBy(ir.nodes, NodeId) && forall n :: n in ir.nodes ==> NodeOk(ir.sources, n)
  }

  function NodeIds(nodes: seq<Node>): set<string> {
    set n | n in nodes :: n.id
  }

  predicate Compatible(e: Edge, from: NodeKind, to: NodeKind) {
    match e.kind
    case TransitionEdge => from.State? && to.State?
    case Satisfies => from.Type? && to.Trait?
    case Requires => to.Trait?
    case GovernedBy => to.Trait?
    case Calls => to.Function? || to.Dispatch? || to.External?
    case Back => to.Loop?
    case Branch => (from.Decision? || from.Dispatch?) && e.guard.Some?
    case Contains => e.from != e.to
    case _ => true
  }

  ghost predicate EndpointsOk(nodes: seq<Node>, e: Edge) {
    exists f, t :: f in nodes && t in nodes && f.id == e.from && t.id == e.to && Compatible(e, f.kind, t.kind)
  }

  ghost predicate EdgeOk(ir: RustBehaviorIr, e: Edge) {
    AnchorOk(ir.sources, e.anchor) && Nonempty(e.id) && EndpointsOk(ir.nodes, e) && Filled(e.guard)
  }

  /** A containment edge between declared nodes: the only kind the ownership checks see. */
  predicate Owns(nodes: set<string>, e: Edge) {
    e.kind == Contains && e.from in nodes && e.to in nodes
  }

  ghost function ContainmentEdges(ir: RustBehaviorIr): Edges<string> {
    set e | e in ir.edges && Owns(NodeIds(ir.nodes), e) :: (e.from, e.to)
  }

  ghost predicate EdgesValid(ir: RustBehaviorIr) {
    && DistinctBy(ir.edges, EdgeId)
    && (forall e :: e in ir.edges ==> EdgeOk(ir, e))
    && SingleParent(ContainmentEdges(ir))
  }

  ghost predicate Acyclic(ir: RustBehaviorIr) {
    forall id :: !OnCycle(ContainmentEdges(ir), id)
  }

  ghost predicate MachineOk(sources: seq<SourceFile>, m: StateMachine) {
    && MachineValid(m)
    && (forall s :: s in m.states ==> s.anchor.Some? && AnchorOk(sources, s.anchor.value))
    && (forall t :: t in m.transitions ==> t.anchor.Some? && AnchorOk(sources, t.anchor.value))
  }

  ghost predicate MachinesValid(ir: RustBehaviorIr) {
    DistinctBy(ir.machines, MachineId) && forall m :: m in ir.machines ==> MachineOk(ir.sources, m)
  }

  /** Everything `ensure_valid` demands, with no reference to the order of anything. */
  ghost predicate IrValid(ir: RustBehaviorIr, digest: string -> string) {
    && HeaderValid(ir) && SourcesValid(ir.sources, digest) && DiagnosticsValid(ir) && NodesValid(ir) && EdgesValid(ir)
    && Acyclic(ir) && MachinesValid(ir)
  }

  /** The containment relation of an accepted IR is a rooted forest over its nodes: one parent at
      most, and climbing from any node ends at a root within as many vertices as there are nodes. */
  lemma AcceptedIsForest(ir: RustBehaviorIr, digest: string -> string)
    requires IrValid(ir, digest)
    ensures RootedForest(ContainmentEdges(ir), NodeIds(ir.nodes))
    ensures |NodeIds(ir.nodes)| <= |ir.nodes|
  {
    ForestIff(ContainmentEdges(ir), NodeIds(ir.nodes));
    IdCount(ir.nodes);
  }

  lemma {:induction false} IdCount(nodes: seq<Node>)
    ensures |NodeIds(nodes)| <= |nodes|
  {
    if nodes != [] {
      IdCount(nodes[1..]);
      assert NodeIds(nodes) == {nodes[0].id} + NodeIds(nodes[1..]);
    }
  }

  /** The ownership and cycle checks reject nothing more: an IR passing every other check is
      accepted exactly when its containment relation is a rooted forest. */
  lemma ForestDecides(ir: RustBehaviorIr, digest: string -> string)
    requires HeaderValid(ir) && SourcesValid(ir.sources, digest) && DiagnosticsValid(ir) && NodesValid(ir)
    requires MachinesValid(ir) && DistinctBy(ir.edges, EdgeId) && forall e :: e in ir.edges ==> EdgeOk(ir, e)
    ensures IrValid(ir, digest) <==> RootedForest(ContainmentEdges(ir), NodeIds(ir.nodes))
  {
    ForestIff(ContainmentEdges(ir), NodeIds(ir.nodes));
  }

  // ---------------------------------------------------------------- the findings

  function SchemaVersionFinding(): (d: Diagnostic) ensures d.severity == Error {
    Diagnostic("schema_version", Error, "unexpected schema version", None)
  }
  function SourceRevision(): (d: Diagnostic) ensures d.severity == Error {
    Diagnostic("source_revision", Error, "revision must be a full lowercase Git object id", None)
  }
  function TreeDigest(): (d: Diagnostic) ensures d.severity == Error {
    Diagnostic("tree_digest", Error, "tree_digest must be a lowercase SHA-256", None)
  }
  function AnalysisProvenance(): (d: Diagnostic) ensures d.severity == Error {
    Diagnostic("analysis_provenance", Error, "extractor and toolchain must be recorded", None)
  }
  function SourcePathFinding(s: SourceFile): (d: Diagnostic) ensures d.severity == Error {
    Diagnostic("source_path", Error, "source path must be portable and relative: " + s.path, None)
  }
  function DuplicateSource(s: SourceFile): (d: Diagnostic) ensures d.severity == Error {
    Diagnostic("duplicate_source", Error, "duplicate source " + s.path, None)
  }
  function SourceDigest(s: SourceFile): (d: Diagnostic) ensures d.severity == Error {
    Diagnostic("source_digest", Error, "source digest mismatch for " + s.path, None)
  }
  function AnchorSource(a: Anchor): (d: Diagnostic) ensures d.severity == Error {
    Diagnostic("anchor_source", Error, "anchor source " + a.file + " is absent", Some(a))
  }
  function AnchorSpan(a: Anchor): (d: Diagnostic) ensures d.severity == Error {
    Diagnostic("anchor_span", Error, "anchor must name a symbol and a valid UTF-8 byte range", Some(a))
  }
  function DiagnosticContent(x: Diagnostic): (d: Diagnostic) ensures d.severity == Error {
    Diagnostic("diagnostic_content", Error, "diagnostic code and message must be nonempty", x.anchor)
  }
  function NodeIdentifier(n: Node): (d: Diagnostic) ensures d.severity == Error {
    Diagnostic("node_identifier", Error, "nodes must have nonempty ids and names", n.anchor)
  }
  function DuplicateNode(n: Node): (d: Diagnostic) ensures d.severity == Error {
    Diagnostic("duplicate_node", Error, "duplicate node " + n.id, n.anchor)
  }
  function NodeProvenance(n: Node): (d: Diagnostic) ensures d.severity == Error {
    Diagnostic("node_provenance", Error, "source-derived node " + n.id + " has no anchor", None)
  }
  function AnnotationPath(a: SourceAnnotation): (d: Diagnostic) ensures d.severity == Error {
    Diagnostic("annotation_path", Error, "source annotation path must be nonempty", Some(a.anchor))
  }
  function AnnotationSource(a: SourceAnnotation): (d: Diagnostic) ensures d.severity == Error {
    Diagnostic("annotation_source", Error,
               "source annotation text must begin with #[ or #![ and exactly match its source span", Some(a.anchor))
  }
  function DuplicateEdge(e: Edge): (d: Diagnostic) ensures d.severity == Error {
    Diagnostic("duplicate_edge", Error, "edge id is empty or duplicated: " + e.id, Some(e.anchor))
  }
  function DanglingEdge(e: Edge): (d: Diagnostic) ensures d.severity == Error {
    Diagnostic("dangling_edge", Error, "edge " + e.id + " references an absent endpoint", Some(e.anchor))
  }
  function EmptyGuard(e: Edge): (d: Diagnostic) ensures d.severity == Error {
    Diagnostic("empty_guard", Error, "guard must be absent or nonempty", Some(e.anchor))
  }
  function AmbiguousOwnership(e: Edge): (d: Diagnostic) ensures d.severity == Error {
    Diagnostic("ambiguous_ownership", Error, "node " + e.to + " has multiple containment parents", Some(e.anchor))
  }
  function EdgeKindFinding(e: Edge): (d: Diagnostic) ensures d.severity == Error {
    Diagnostic("edge_kind", Error, "edge " + e.id + " is incompatible with endpoint kinds or guard", Some(e.anchor))
  }
  function UncertainFact(e: Edge): (d: Diagnostic) ensures d.severity == Warning {
    Diagnostic(if e.resolution == Unresolved then "unresolved_fact" else "inferred_fact", Warning,
               "edge " + e.id + " is " + (if e.resolution == Unresolved then "Unresolved" else "Inferred"),
                 Some(e.anchor))
  }
  function ContainmentCycle(id: string): (d: Diagnostic) ensures d.severity == Error {
    Diagnostic("containment_cycle", Error, "containment cycle through " + id, None)
  }
  function UnknownLoopExit(n: Node): (d: Diagnostic) ensures d.severity == Warning {
    Diagnostic("unknown_loop_exit", Warning, "loop " + n.id + " has no known exit; termination is unproven", n.anchor)
  }
  function UnresolvedDispatch(n: Node): (d: Diagnostic) ensures d.severity == Warning {
    Diagnostic("unresolved_dispatch", Warning, "dispatch " + n.id + " has no proven targets", n.anchor)
  }
  function DuplicateMachine(m: StateMachine): (d: Diagnostic) ensures d.severity == Error {
    Diagnostic("duplicate_machine", Error, "duplicate machine " + m.id, None)
  }
  function StateProvenance(m: StateMachine, s: MachineState): (d: Diagnostic) ensures d.severity == Error {
    Diagnostic("machine_provenance", Error, "machine " + m.id + " state " + s.id + " has no source anchor", None)
  }
  function TransitionProvenance(m: StateMachine, t: Transition): (d: Diagnostic) ensures d.severity == Error {
    Diagnostic("machine_provenance", Error, "machine " + m.id + " transition " + t.id + " has no source anchor", None)
  }

  /** Push a finding when `bad` holds. */
  method Push(findings0: seq<Diagnostic>, bad: bool, d: Diagnostic) returns (findings: seq<Diagnostic>)
    ensures HasError(findings) <==> HasError(findings0) || (bad && d.severity == Error)
    ensures Mild(findings) == Mild(findings0) + if bad && d.severity != Error then {d} else {}
  {
    findings := Report(findings0, bad, d);
  }

  // ---------------------------------------------------------------- the checks

  method CheckHeader(ir: RustBehaviorIr, findings0: seq<Diagnostic>) returns (findings: seq<Diagnostic>)
    ensures HasError(findings) <==> HasError(findings0) || !HeaderValid(ir)
    ensures Mild(findings) == Mild(findings0)
  {
    var schema := ir.schemaVersion != SCHEMA_VERSION;
    var revision := !IsHex(ir.provenance.revision, {40, 64});
    var tree := !IsHex(ir.provenance.treeDigest, {64});
    var tools := !Nonempty(ir.provenance.extractor) || !Nonempty(ir.provenance.toolchain);
    assert HeaderValid(ir) <==> !schema && !revision && !tree && !tools;
    hide *;
    findings := Push(findings0, schema, SchemaVersionFinding());
    findings := Push(findings, revision, SourceRevision());
    findings := Push(findings, tree, TreeDigest());
    findings := Push(findings, tools, AnalysisProvenance());
  }

  /** The `sources` map: each path of the first `n` sources, with one of them. */
  ghost predicate SourceMap(sources: seq<SourceFile>, n: nat, m: map<string, SourceFile>)
    requires n <= |sources|
  {
    && (forall p :: p in m ==> m[p].path == p && m[p] in sources[..n])
    && (forall k :: 0 <= k < n ==> sources[k].path in m)
  }

  ghost predicate SourcesPrefix(sources: seq<SourceFile>, n: nat, digest: string -> string)
    requires n <= |sources|
  {
    SourcesValid(sources[..n], digest)
  }

  lemma SourcesStep(sources: seq<SourceFile>, n: nat, digest: string -> string, m: map<string, SourceFile>)
    requires n < |sources| && SourceMap(sources, n, m)
    ensures SourceMap(sources, n + 1, m[sources[n].path := sources[n]])
    ensures SourcesPrefix(sources, n + 1, digest)
            <==> SourcesPrefix(sources, n, digest) && sources[n].path !in m && SourceOk(sources[n], digest)
  {
    hide SourceOk;
    var before, after, s := sources[..n], sources[..n + 1], sources[n];
    assert after == before + [s];
    forall k | 0 <= k < n ensures after[k] == sources[k] && before[k] == sources[k] {}
    if s.path in m {
      var k :| 0 <= k < n && sources[k] == m[s.path];
      assert SourcePath(after[k]) == SourcePath(after[n]);
    } else if SourcesPrefix(sources, n, digest) {
      forall i, j | 0 <= i < j < |after| ensures SourcePath(after[i]) != SourcePath(after[j]) {
        if j < n { assert SourcePath(before[i]) != SourcePath(before[j]); }
      }
    }
    if SourcesPrefix(sources, n + 1, digest) {
      forall i, j | 0 <= i < j < |before| ensures SourcePath(before[i]) != SourcePath(before[j]) {
        assert SourcePath(after[i]) != SourcePath(after[j]);
      }
    }
  }

  method CheckSource(s: SourceFile, digest: string -> string, repeated: bool, findings0: seq<Diagnostic>)
    returns (findings: seq<Diagnostic>)
    ensures HasError(findings) <==> HasError(findings0) || repeated || !SourceOk(s, digest)
    ensures Mild(findings) == Mild(findings0)
  {
    var path := !RelativePath(s.path);
    var mismatch := !IsHex(s.sha256, {64}) || digest(s.content) != s.sha256;
    assert SourceOk(s, digest) <==> !path && !mismatch;
    hide *;
    findings := Push(findings0, path, SourcePathFinding(s));
    findings := Push(findings, repeated, DuplicateSource(s));
    findings := Push(findings, mismatch, SourceDigest(s));
  }

  lemma SourcesEnds(sources: seq<SourceFile>, digest: string -> string)
    ensures SourcesPrefix(sources, 0, digest) && SourceMap(sources, 0, map[])
    ensures SourcesPrefix(sources, |sources|, digest) == SourcesValid(sources, digest)
  {
    assert sources[..|sources|] == sources;
    hide SourceOk;
  }

  method CheckSources(ir: RustBehaviorIr, digest: string -> string, findings0: seq<Diagnostic>)
    returns (findings: seq<Diagnostic>, sources: map<string, SourceFile>)
    ensures HasError(findings) <==> HasError(findings0) || !SourcesValid(ir.sources, digest)
    ensures SourceMap(ir.sources, |ir.sources|, sources)
    ensures Mild(findings) == Mild(findings0)
  {
    findings, sources := findings0, map[];
    SourcesEnds(ir.sources, digest);
    hide *;
    for i := 0 to |ir.sources|
      invariant SourceMap(ir.sources, i, sources)
      invariant HasError(findings) <==> HasError(findings0) || !SourcesPrefix(ir.sources, i, digest)
      invariant Mild(findings) == Mild(findings0)
    {
      var s := ir.sources[i];
      SourcesStep(ir.sources, i, digest, sources);
      findings := CheckSource(s, digest, s.path in sources, findings);
      sources := sources[s.path := s];
    }
  }

  /** What later checks rely on: the map holds the sources, or a duplicate was reported. */
  ghost predicate Known(ir: RustBehaviorIr, digest: string -> string, sources: map<string, SourceFile>,
                        findings: seq<Diagnostic>) {
    SourceMap(ir.sources, |ir.sources|, sources) && (HasError(findings) || SourcesValid(ir.sources, digest))
  }

  lemma UniqueSource(ir: RustBehaviorIr, digest: string -> string, sources: map<string, SourceFile>, path: string)
    requires SourceMap(ir.sources, |ir.sources|, sources) && SourcesValid(ir.sources, digest)
    ensures forall s :: s in ir.sources && s.path == path <==> path in sources && s == sources[path]
  {
    hide SourceOk;
    assert ir.sources[..|ir.sources|] == ir.sources;
    forall s | s in ir.sources && s.path == path ensures path in sources && s == sources[path] {
      var i :| 0 <= i < |ir.sources| && ir.sources[i] == s;
      var j :| 0 <= j < |ir.sources| && ir.sources[j] == sources[path];
      assert SourcePath(ir.sources[i]) == SourcePath(ir.sources[j]);
    }
  }

  /** `check_anchor`. */
  method CheckAnchor(ir: RustBehaviorIr, ghost digest: string -> string, sources: map<string, SourceFile>, a: Anchor,
                     findings0: seq<Diagnostic>)
    returns (findings: seq<Diagnostic>)
    requires Known(ir, digest, sources, findings0)
    ensures HasError(findings) <==> HasError(findings0) || !AnchorOk(ir.sources, a)
    ensures Known(ir, digest, sources, findings)
    ensures Mild(findings) == Mild(findings0)
  {
    if SourcesValid(ir.sources, digest) { UniqueSource(ir, digest, sources, a.file); }
    hide Mild, SourceMap, SourcesValid, SpanOk, HasError;
    var absent := a.file !in sources;
    findings := Push(findings0, absent, AnchorSource(a));
    if !absent {
      findings := Push(findings, !SpanOk(sources[a.file], a), AnchorSpan(a));
    }
  }

  method CheckOptAnchor(ir: RustBehaviorIr, ghost digest: string -> string, sources: map<string, SourceFile>,
                        a: Option<Anchor>, findings0: seq<Diagnostic>)
    returns (findings: seq<Diagnostic>)
    requires Known(ir, digest, sources, findings0)
    ensures HasError(findings) <==> HasError(findings0) || !OptAnchorOk(ir.sources, a)
    ensures Known(ir, digest, sources, findings)
    ensures Mild(findings) == Mild(findings0)
  {
    hide Mild, Known, AnchorOk, HasError;
    findings := findings0;
    if a.Some? { findings := CheckAnchor(ir, digest, sources, a.value, findings); }
  }

  lemma StillKnown(ir: RustBehaviorIr, digest: string -> string, sources: map<string, SourceFile>,
                   before: seq<Diagnostic>, after: seq<Diagnostic>)
    requires Known(ir, digest, sources, before) && (HasError(before) ==> HasError(after))
    ensures Known(ir, digest, sources, after)
  {
  }

  method CheckDiagnostics(ir: RustBehaviorIr, ghost digest: string -> string, sources: map<string, SourceFile>,
                          findings0: seq<Diagnostic>)
    returns (findings: seq<Diagnostic>)
    requires Known(ir, digest, sources, findings0)
    requires forall d :: d in ir.diagnostics && d.severity == Error ==> HasError(findings0)
    ensures HasError(findings) <==> HasError(findings0) || !DiagnosticsValid(ir)
    ensures Known(ir, digest, sources, findings)
    ensures Mild(findings) == Mild(findings0)
  {
    hide Mild, Known, AnchorOk, HasError, Nonempty, OptAnchorOk;
    findings := findings0;
    for i := 0 to |ir.diagnostics|
      invariant HasError(findings)
                <==> HasError(findings0) || exists k :: 0 <= k < i && !DiagnosticOk(ir.sources, ir.diagnostics[k])
      invariant Mild(findings) == Mild(findings0)
      invariant Known(ir, digest, sources, findings)
    {
      var d := ir.diagnostics[i];
      ghost var before := findings;
      var blank := !Nonempty(d.code) || !Nonempty(d.message);
      findings := Push(findings, blank, DiagnosticContent(d));
      StillKnown(ir, digest, sources, before, findings);
      findings := CheckOptAnchor(ir, digest, sources, d.anchor, findings);
      assert d in ir.diagnostics;
    }
    assert DiagnosticsValid(ir)
      <==> forall k :: 0 <= k < |ir.diagnostics| ==> DiagnosticOk(ir.sources, ir.diagnostics[k]);
  }

  /** With valid sources, looking the file up finds the annotated text or no source has it. */
  lemma AnnotationMatch(ir: RustBehaviorIr, digest: string -> string, sources: map<string, SourceFile>,
                        a: SourceAnnotation)
    requires SourceMap(ir.sources, |ir.sources|, sources)
    ensures SourcesValid(ir.sources, digest) ==>
              (a.anchor.file in sources && SpanIs(sources[a.anchor.file].content, a.anchor.start, a.anchor.end, a.text)
               <==> exists s :: s in ir.sources && s.path == a.anchor.file
                                && SpanIs(s.content, a.anchor.start, a.anchor.end, a.text))
  {
    if SourcesValid(ir.sources, digest) { UniqueSource(ir, digest, sources, a.anchor.file); }
    hide SourceMap, SourcesValid, SpanIs;
  }

  method CheckAnnotation(ir: RustBehaviorIr, ghost digest: string -> string, sources: map<string, SourceFile>,
                         a: SourceAnnotation, findings0: seq<Diagnostic>)
    returns (findings: seq<Diagnostic>)
    requires Known(ir, digest, sources, findings0)
    ensures HasError(findings) <==> HasError(findings0) || !AnnotationOk(ir.sources, a)
    ensures Known(ir, digest, sources, findings)
    ensures Mild(findings) == Mild(findings0)
  {
    AnnotationMatch(ir, digest, sources, a);
    hide Mild, Known, SourceMap, SourcesValid, HasError, AnchorOk, Nonempty, AttributeText, SpanIs;
    findings := CheckAnchor(ir, digest, sources, a.anchor, findings0);
    ghost var before := findings;
    findings := CheckAnnotationText(sources, a, findings);
    StillKnown(ir, digest, sources, before, findings);
    KnownSources(ir, digest, sources, findings);
  }

  lemma KnownSources(ir: RustBehaviorIr, digest: string -> string, sources: map<string, SourceFile>,
                     findings: seq<Diagnostic>)
    requires Known(ir, digest, sources, findings)
    ensures HasError(findings) || SourcesValid(ir.sources, digest)
  {
    hide SourceMap, SourcesValid, HasError;
  }

  method CheckAnnotationText(sources: map<string, SourceFile>, a: SourceAnnotation, findings0: seq<Diagnostic>)
    returns (findings: seq<Diagnostic>)
    ensures HasError(findings)
            <==> HasError(findings0) || !Nonempty(a.path) || !AttributeText(a.text)
                 || !(a.anchor.file in sources
                      && SpanIs(sources[a.anchor.file].content, a.anchor.start, a.anchor.end, a.text))
    ensures Mild(findings) == Mild(findings0)
  {
    hide Mild, HasError, Nonempty, AttributeText, SpanIs, AnnotationPath, AnnotationSource;
    findings := Push(findings0, !Nonempty(a.path), AnnotationPath(a));
    var matches := a.anchor.file in sources
                   && SpanIs(sources[a.anchor.file].content, a.anchor.start, a.anchor.end, a.text);
    findings := Push(findings, !AttributeText(a.text) || !matches, AnnotationSource(a));
  }

  method CheckNode(ir: RustBehaviorIr, ghost digest: string -> string, sources: map<string, SourceFile>, n: Node,
                   repeated: bool, findings0: seq<Diagnostic>)
    returns (findings: seq<Diagnostic>)
    requires Known(ir, digest, sources, findings0)
    ensures HasError(findings) <==> HasError(findings0) || repeated || !NodeOk(ir.sources, n)
    ensures Known(ir, digest, sources, findings)
    ensures Mild(findings) == Mild(findings0)
  {
    assert n.anchor.None? ==> OptAnchorOk(ir.sources, n.anchor);
    hide Mild, Known, AnchorOk, HasError, Nonempty, OptAnchorOk, AnnotationOk, NodeIdentifier, DuplicateNode,
      NodeProvenance;
    findings := Push(findings0, !Nonempty(n.id) || !Nonempty(n.name), NodeIdentifier(n));
    findings := Push(findings, repeated, DuplicateNode(n));
    StillKnown(ir, digest, sources, findings0, findings);
    ghost var before := findings;
    findings := CheckOptAnchor(ir, digest, sources, n.anchor, findings);
    ghost var between := findings;
    findings := Push(findings, n.anchor.None? && n.kind != External, NodeProvenance(n));
    StillKnown(ir, digest, sources, between, findings);
    findings := CheckAnnotations(ir, digest, sources, n.annotations, findings);
  }

  method CheckAnnotations(ir: RustBehaviorIr, ghost digest: string -> string, sources: map<string, SourceFile>,
                          annotations: seq<SourceAnnotation>, findings0: seq<Diagnostic>)
    returns (findings: seq<Diagnostic>)
    requires Known(ir, digest, sources, findings0)
    ensures HasError(findings)
            <==> HasError(findings0) || !(forall a :: a in annotations ==> AnnotationOk(ir.sources, a))
    ensures Known(ir, digest, sources, findings)
    ensures Mild(findings) == Mild(findings0)
  {
    hide *;
    findings := findings0;
    for i := 0 to |annotations|
      invariant HasError(findings)
                <==> HasError(findings0) || exists k :: 0 <= k < i && !AnnotationOk(ir.sources, annotations[k])
      invariant Mild(findings) == Mild(findings0)
      invariant Known(ir, digest, sources, findings)
    {
      findings := CheckAnnotation(ir, digest, sources, annotations[i], findings);
    }
    assert (forall a :: a in annotations ==> AnnotationOk(ir.sources, a))
           <==> forall k :: 0 <= k < |annotations| ==> AnnotationOk(ir.sources, annotations[k]);
  }

  // ---------------------------------------------------------------- nodes and edges

  /** The `nodes` map: each id of the first `n` nodes, with one of them. */
  ghost predicate NodeMap(nodes: seq<Node>, n: nat, m: map<string, Node>)
    requires n <= |nodes|
  {
    && (forall id :: id in m ==> m[id].id == id && m[id] in nodes[..n])
    && (forall k :: 0 <= k < n ==> nodes[k].id in m)
  }

  ghost predicate NodesPrefix(ir: RustBehaviorIr, n: nat)
    requires n <= |ir.nodes|
  {
    DistinctBy(ir.nodes[..n], NodeId) && forall k :: 0 <= k < n ==> NodeOk(ir.sources, ir.nodes[k])
  }

  lemma NodesStep(ir: RustBehaviorIr, n: nat, m: map<string, Node>)
    requires n < |ir.nodes| && NodeMap(ir.nodes, n, m)
    ensures NodeMap(ir.nodes, n + 1, m[ir.nodes[n].id := ir.nodes[n]])
    ensures NodesPrefix(ir, n + 1) <==> NodesPrefix(ir, n) && ir.nodes[n].id !in m && NodeOk(ir.sources, ir.nodes[n])
  {
    hide NodeOk;
    var before, after, x := ir.nodes[..n], ir.nodes[..n + 1], ir.nodes[n];
    assert after == before + [x];
    NodeSeen(ir, n, m);
    hide NodeMap;
    DistinctStep(before, x, NodeId);
    assert (forall k :: 0 <= k < n + 1 ==> NodeOk(ir.sources, ir.nodes[k]))
           <==> (forall k :: 0 <= k < n ==> NodeOk(ir.sources, ir.nodes[k])) && NodeOk(ir.sources, x);
  }

  lemma NodeSeen(ir: RustBehaviorIr, n: nat, m: map<string, Node>)
    requires n < |ir.nodes| && NodeMap(ir.nodes, n, m)
    ensures NodeMap(ir.nodes, n + 1, m[ir.nodes[n].id := ir.nodes[n]])
    ensures (exists y :: y in ir.nodes[..n] && NodeId(y) == NodeId(ir.nodes[n])) <==> ir.nodes[n].id in m
  {
    var before, x := ir.nodes[..n], ir.nodes[n];
    assert ir.nodes[..n + 1] == before + [x];
    if x.id in m { assert m[x.id] in before; }
    if y :| y in before && NodeId(y) == NodeId(x) {
      var k :| 0 <= k < n && ir.nodes[k] == y;
    }
  }

  lemma DistinctStep<T>(before: seq<T>, x: T, id: T -> string)
    ensures DistinctBy(before + [x], id) <==> DistinctBy(before, id) && !exists y :: y in before && id(y) == id(x)
  {
    var after := before + [x];
    if DistinctBy(after, id) {
      forall i, j | 0 <= i < j < |before| ensures id(before[i]) != id(before[j]) {
        assert id(after[i]) != id(after[j]);
      }
      forall k | 0 <= k < |before| ensures id(before[k]) != id(x) {
        assert id(after[k]) != id(after[|before|]);
      }
    }
    if DistinctBy(before, id) && !exists y :: y in before && id(y) == id(x) {
      forall i, j | 0 <= i < j < |after| ensures id(after[i]) != id(after[j]) {
        if j < |before| { assert id(before[i]) != id(before[j]); } else { assert before[i] in before; }
      }
    }
  }

  lemma NodesEnds(ir: RustBehaviorIr)
    ensures NodesPrefix(ir, 0) && NodeMap(ir.nodes, 0, map[])
    ensures NodesPrefix(ir, |ir.nodes|) <==> NodesValid(ir)
  {
    hide NodeOk;
    assert ir.nodes[..|ir.nodes|] == ir.nodes;
  }

  method CheckNodes(ir: RustBehaviorIr, ghost digest: string -> string, sources: map<string, SourceFile>,
                    findings0: seq<Diagnostic>)
    returns (findings: seq<Diagnostic>, nodes: map<string, Node>)
    requires Known(ir, digest, sources, findings0)
    ensures HasError(findings) <==> HasError(findings0) || !NodesValid(ir)
    ensures Known(ir, digest, sources, findings)
    ensures NodeMap(ir.nodes, |ir.nodes|, nodes)
    ensures Mild(findings) == Mild(findings0)
  {
    findings, nodes := findings0, map[];
    NodesEnds(ir);
    hide *;
    for i := 0 to |ir.nodes|
      invariant NodeMap(ir.nodes, i, nodes)
      invariant HasError(findings) <==> HasError(findings0) || !NodesPrefix(ir, i)
      invariant Mild(findings) == Mild(findings0)
      invariant Known(ir, digest, sources, findings)
    {
      var n := ir.nodes[i];
      NodesStep(ir, i, nodes);
      findings := CheckNode(ir, digest, sources, n, n.id in nodes, findings);
      nodes := nodes[n.id := n];
    }
  }

  /** What the edge checks rely on: the map holds the nodes, or a duplicate was reported. */
  ghost predicate NodesKnown(ir: RustBehaviorIr, nodes: map<string, Node>, findings: seq<Diagnostic>) {
    NodeMap(ir.nodes, |ir.nodes|, nodes) && (HasError(findings) || DistinctBy(ir.nodes, NodeId))
  }

  lemma UniqueNode(ir: RustBehaviorIr, nodes: map<string, Node>, id: string)
    requires NodeMap(ir.nodes, |ir.nodes|, nodes)
    ensures id in nodes <==> id in NodeIds(ir.nodes)
    ensures DistinctBy(ir.nodes, NodeId) ==> forall n :: n in ir.nodes && n.id == id <==> id in nodes && n == nodes[id]
  {
    assert ir.nodes[..|ir.nodes|] == ir.nodes;
    if DistinctBy(ir.nodes, NodeId) {
      forall n | n in ir.nodes && n.id == id ensures id in nodes && n == nodes[id] {
        var i :| 0 <= i < |ir.nodes| && ir.nodes[i] == n;
        var j :| 0 <= j < |ir.nodes| && ir.nodes[j] == nodes[id];
        assert NodeId(ir.nodes[i]) == NodeId(ir.nodes[j]);
      }
    }
  }

  /** The checks of one edge other than ownership. */
  /** The warnings about edges that are inferred or unresolved, between declared nodes. */
  ghost function UncertainIn(edges: seq<Edge>, ids: set<string>): set<Diagnostic> {
    set e | e in edges && e.from in ids && e.to in ids && e.resolution != Resolved :: UncertainFact(e)
  }

  ghost function UncertainUpTo(edges: seq<Edge>, n: nat, ids: set<string>): set<Diagnostic>
    requires n <= |edges|
  {
    UncertainIn(edges[..n], ids)
  }

  function UncertainOf(e: Edge, ids: set<string>): set<Diagnostic> {
    if e.from in ids && e.to in ids && e.resolution != Resolved then {UncertainFact(e)} else {}
  }

  lemma UncertainNext(edges: seq<Edge>, n: nat, ids: set<string>)
    requires n < |edges|
    ensures UncertainUpTo(edges, n + 1, ids) == UncertainUpTo(edges, n, ids) + UncertainOf(edges[n], ids)
  {
    hide UncertainFact;
    assert edges[..n + 1] == edges[..n] + [edges[n]];
  }

  lemma UncertainEnds(edges: seq<Edge>, ids: set<string>)
    ensures UncertainUpTo(edges, 0, ids) == {} && UncertainUpTo(edges, |edges|, ids) == UncertainIn(edges, ids)
  {
    assert edges[..|edges|] == edges;
  }

  /** The findings about an edge between declared nodes. */
  method CheckEdgeFacts(e: Edge, compatible: bool, findings0: seq<Diagnostic>) returns (findings: seq<Diagnostic>)
    ensures HasError(findings) <==> HasError(findings0) || !Filled(e.guard) || !compatible
    ensures Mild(findings) == Mild(findings0) + if e.resolution != Resolved then {UncertainFact(e)} else {}
  {
    hide *;
    findings := Push(findings0, !Filled(e.guard), EmptyGuard(e));
    findings := Push(findings, !compatible, EdgeKindFinding(e));
    findings := Push(findings, e.resolution != Resolved, UncertainFact(e));
  }

  method CheckEdge(ir: RustBehaviorIr, ghost digest: string -> string, sources: map<string, SourceFile>,
                   nodes: map<string, Node>, e: Edge, repeated: bool, findings0: seq<Diagnostic>)
    returns (findings: seq<Diagnostic>)
    requires Known(ir, digest, sources, findings0) && NodesKnown(ir, nodes, findings0)
    ensures HasError(findings) <==> HasError(findings0) || repeated || !EdgeOk(ir, e)
    ensures Mild(findings) == Mild(findings0) + UncertainOf(e, nodes.Keys)
    ensures Known(ir, digest, sources, findings) && NodesKnown(ir, nodes, findings)
  {
    UniqueNode(ir, nodes, e.from);
    UniqueNode(ir, nodes, e.to);
    hide Mild, UncertainFact, NodeMap, Known, AnchorOk, HasError, Nonempty, Compatible, DuplicateEdge, DanglingEdge,
      EmptyGuard, EdgeKindFinding, UncertainFact, Filled, NodeIds, DistinctBy;
    ghost var sound := DistinctBy(ir.nodes, NodeId);
    var present := e.from in nodes && e.to in nodes;
    var compatible := present && Compatible(e, nodes[e.from].kind, nodes[e.to].kind);
    assert sound ==> (EndpointsOk(ir.nodes, e) <==> compatible);
    findings := CheckAnchor(ir, digest, sources, e.anchor, findings0);
    ghost var anchored := findings;
    findings := Push(findings, !Nonempty(e.id) || repeated, DuplicateEdge(e));
    findings := Push(findings, !present, DanglingEdge(e));
    if present {
      findings := CheckEdgeFacts(e, compatible, findings);
    }
    StillKnown(ir, digest, sources, anchored, findings);
  }

  /** The edge loop after `n` edges: ids seen, owners recorded, containment adjacency built. */
  ghost predicate EdgesPrefix(ir: RustBehaviorIr, n: nat)
    requires n <= |ir.edges|
  {
    && DistinctBy(ir.edges[..n], EdgeId)
    && (forall k :: 0 <= k < n ==> EdgeOk(ir, ir.edges[k]))
    && SingleParent(OwnedBefore(ir, n))
  }

  ghost function OwnedBefore(ir: RustBehaviorIr, n: nat): Edges<string>
    requires n <= |ir.edges|
  {
    set k | 0 <= k < n && Owns(NodeIds(ir.nodes), ir.edges[k]) :: (ir.edges[k].from, ir.edges[k].to)
  }

  ghost predicate IdTable(ir: RustBehaviorIr, n: nat, ids: set<string>)
    requires n <= |ir.edges|
  {
    && (forall k :: 0 <= k < n && Nonempty(ir.edges[k].id) ==> ir.edges[k].id in ids)
    && (forall id :: id in ids ==> exists k :: 0 <= k < n && ir.edges[k].id == id)
  }

  ghost predicate OwnerTable(owned: Edges<string>, owners: map<string, string>) {
    && (forall to :: to in owners ==> (owners[to], to) in owned)
    && (forall from, to :: (from, to) in owned ==> to in owners)
  }

  ghost predicate EdgeTables(ir: RustBehaviorIr, n: nat, ids: set<string>, owners: map<string, string>,
                             contains: Containment)
    requires n <= |ir.edges|
  {
    && IdTable(ir, n, ids)
    && OwnerTable(OwnedBefore(ir, n), owners)
    && ContainsEdges(contains) == OwnedBefore(ir, n)
  }

  lemma IdStep(ir: RustBehaviorIr, n: nat, ids: set<string>)
    requires n < |ir.edges| && IdTable(ir, n, ids)
    ensures var e := ir.edges[n];
            && IdTable(ir, n + 1, if Nonempty(e.id) then ids + {e.id} else ids)
            && (Nonempty(e.id) ==> ((exists y :: y in ir.edges[..n] && EdgeId(y) == EdgeId(e)) <==> e.id in ids))
  {
    hide Nonempty;
    var e := ir.edges[n];
    if e.id in ids {
      var k :| 0 <= k < n && ir.edges[k].id == e.id;
      assert ir.edges[k] in ir.edges[..n];
    }
    if y :| y in ir.edges[..n] && EdgeId(y) == EdgeId(e) {
      var k :| 0 <= k < n && ir.edges[k] == y;
    }
  }

  lemma OwnersStep(before: Edges<string>, owners: map<string, string>, from: string, to: string)
    requires OwnerTable(before, owners)
    ensures OwnerTable(before + {(from, to)}, owners[to := from])
    ensures SingleParent(before + {(from, to)}) <==> SingleParent(before) && !(to in owners && owners[to] != from)
  {
    if SingleParent(before + {(from, to)}) {
      forall a, b, c | (a, c) in before && (b, c) in before ensures a == b {
        assert (a, c) in before + {(from, to)} && (b, c) in before + {(from, to)};
      }
      if to in owners {
        assert (owners[to], to) in before + {(from, to)} && (from, to) in before + {(from, to)};
      }
    }
  }

  lemma OwnedStep(ir: RustBehaviorIr, n: nat)
    requires n < |ir.edges|
    ensures var e := ir.edges[n];
            OwnedBefore(ir, n + 1) == OwnedBefore(ir, n) + if Owns(NodeIds(ir.nodes), e) then {(e.from, e.to)} else {}
  {
    hide Owns, NodeIds;
  }

  /** `contains.entry(from).or_default().push(to)`. */
  function AddChild(contains: Containment, from: string, to: string): Containment {
    contains[from := (if from in contains then contains[from] else []) + [to]]
  }

  lemma AddChildEdges(contains: Containment, from: string, to: string)
    ensures ContainsEdges(AddChild(contains, from, to)) == ContainsEdges(contains) + {(from, to)}
  {
    var after := AddChild(contains, from, to);
    forall a, b ensures (a, b) in ContainsEdges(after) <==> (a, b) in ContainsEdges(contains) || (a, b) == (from, to) {
      assert after[from][|after[from]| - 1] == to;
    }
  }

  lemma EdgesStep(ir: RustBehaviorIr, n: nat, ids: set<string>, owners: map<string, string>, contains: Containment)
    requires n < |ir.edges| && EdgeTables(ir, n, ids, owners, contains)
    ensures var e := ir.edges[n];
            var own := Owns(NodeIds(ir.nodes), e);
            && EdgeTables(ir, n + 1, if Nonempty(e.id) then ids + {e.id} else ids,
                          if own then owners[e.to := e.from] else owners, if own then AddChild(contains, e.from, e.to)
                            else contains)
            && (EdgesPrefix(ir, n + 1) <==> EdgesPrefix(ir, n) && EdgeOk(ir, e) && e.id !in ids
                                            && !(own && e.to in owners && owners[e.to] != e.from))
  {
    var e := ir.edges[n];
    assert ir.edges[..n + 1] == ir.edges[..n] + [e];
    hide OwnedBefore, Owns, Nonempty, SingleParent, ContainsEdges, DistinctBy, IdTable, OwnerTable, AddChild, NodeIds,
      AnchorOk, EndpointsOk, Filled;
    DistinctStep(ir.edges[..n], e, EdgeId);
    OwnedStep(ir, n);
    OwnersStep(OwnedBefore(ir, n), owners, e.from, e.to);
    AddChildEdges(contains, e.from, e.to);
    IdStep(ir, n, ids);
    assert OwnedBefore(ir, n) + {} == OwnedBefore(ir, n);
  }

  method CheckEdges(ir: RustBehaviorIr, ghost digest: string -> string, sources: map<string, SourceFile>,
                    nodes: map<string, Node>, findings0: seq<Diagnostic>)
    returns (findings: seq<Diagnostic>, contains: Containment)
    requires Known(ir, digest, sources, findings0) && NodesKnown(ir, nodes, findings0)
    ensures HasError(findings) <==> HasError(findings0) || !EdgesValid(ir)
    ensures Mild(findings) == Mild(findings0) + UncertainIn(ir.edges, nodes.Keys)
    ensures Known(ir, digest, sources, findings)
    ensures ContainsEdges(contains) == ContainmentEdges(ir)
  {
    findings, contains := findings0, map[];
    var ids: set<string> := {};
    var owners: map<string, string> := map[];
    EdgesEnds(ir);
    UncertainEnds(ir.edges, nodes.Keys);
    hide *;
    for i := 0 to |ir.edges|
      invariant EdgeTables(ir, i, ids, owners, contains)
      invariant HasError(findings) <==> HasError(findings0) || !EdgesPrefix(ir, i)
      invariant Mild(findings) == Mild(findings0) + UncertainUpTo(ir.edges, i, nodes.Keys)
      invariant Known(ir, digest, sources, findings) && NodesKnown(ir, nodes, findings)
    {
      var e := ir.edges[i];
      EdgesStep(ir, i, ids, owners, contains);
      UncertainNext(ir.edges, i, nodes.Keys);
      OwnsByMap(ir, nodes, e);
      var own := e.kind == Contains && e.from in nodes && e.to in nodes;
      findings := CheckEdge(ir, digest, sources, nodes, e, Nonempty(e.id) && e.id in ids, findings);
      ghost var before := findings;
      findings := Push(findings, own && e.to in owners && owners[e.to] != e.from, AmbiguousOwnership(e));
      StillKnown(ir, digest, sources, before, findings);
      StillNodesKnown(ir, nodes, before, findings);
      EdgeIdNonempty(ir, e);
      if Nonempty(e.id) { ids := ids + {e.id}; }
      if own {
        owners := owners[e.to := e.from];
        contains := AddChild(contains, e.from, e.to);
      }
    }
    EdgesEndsTables(ir, ids, owners, contains);
  }

  lemma EdgeIdNonempty(ir: RustBehaviorIr, e: Edge)
    ensures EdgeOk(ir, e) ==> Nonempty(e.id)
  {
  }

  lemma OwnsByMap(ir: RustBehaviorIr, nodes: map<string, Node>, e: Edge)
    requires NodesKnown(ir, nodes, []) || exists fs :: NodesKnown(ir, nodes, fs)
    ensures Owns(NodeIds(ir.nodes), e) <==> e.kind == Contains && e.from in nodes && e.to in nodes
  {
    UniqueNode(ir, nodes, e.from);
    UniqueNode(ir, nodes, e.to);
  }

  lemma StillNodesKnown(ir: RustBehaviorIr, nodes: map<string, Node>, before: seq<Diagnostic>, after: seq<Diagnostic>)
    requires NodesKnown(ir, nodes, before) && (HasError(before) ==> HasError(after))
    ensures NodesKnown(ir, nodes, after)
  {
  }

  lemma EdgesEnds(ir: RustBehaviorIr)
    ensures EdgesPrefix(ir, 0) && EdgeTables(ir, 0, {}, map[], map[])
    ensures EdgesPrefix(ir, |ir.edges|) <==> EdgesValid(ir)
  {
    assert ir.edges[..|ir.edges|] == ir.edges;
    assert OwnedBefore(ir, |ir.edges|) == ContainmentEdges(ir);
    assert (forall k :: 0 <= k < |ir.edges| ==> EdgeOk(ir, ir.edges[k]))
      <==> forall e :: e in ir.edges ==> EdgeOk(ir, e);
    hide EdgeOk, Owns, SingleParent;
  }

  lemma EdgesEndsTables(ir: RustBehaviorIr, ids: set<string>, owners: map<string, string>, contains: Containment)
    requires EdgeTables(ir, |ir.edges|, ids, owners, contains)
    ensures ContainsEdges(contains) == ContainmentEdges(ir)
  {
    hide Owns;
    assert OwnedBefore(ir, |ir.edges|) == ContainmentEdges(ir);
  }

  // ---------------------------------------------------------------- cycles, lints and machines

  method ReportCycles(ir: RustBehaviorIr, contains: Containment, findings0: seq<Diagnostic>)
    returns (findings: seq<Diagnostic>)
    requires ContainsEdges(contains) == ContainmentEdges(ir)
    ensures HasError(findings) <==> HasError(findings0) || !Acyclic(ir)
    ensures Mild(findings) == Mild(findings0)
  {
    var cyclic := ContainmentCycles(contains);
    hide Mild, HasError, OnCycle, ContainsEdges, ContainmentEdges, ContainmentCycle;
    findings := findings0;
    for i := 0 to |cyclic|
      invariant HasError(findings) <==> HasError(findings0) || i > 0
      invariant Mild(findings) == Mild(findings0)
    {
      findings := Push(findings, true, ContainmentCycle(cyclic[i]));
    }
    assert Acyclic(ir) <==> cyclic == [] by {
      if cyclic != [] { assert cyclic[0] in cyclic; }
    }
  }

  predicate HasExit(edges: seq<Edge>, n: Node) {
    exists e :: e in edges && e.from == n.id && e.kind == ExitEdge
  }

  predicate HasCall(edges: seq<Edge>, n: Node) {
    exists e :: e in edges && e.from == n.id && e.kind == Calls
  }

  /** The warnings about loops without a known exit and dispatches without a proven target. */
  ghost function LintsIn(nodes: seq<Node>, edges: seq<Edge>): set<Diagnostic> {
    (set n | n in nodes && n.kind == Loop && !HasExit(edges, n) :: UnknownLoopExit(n))
    + (set n | n in nodes && n.kind == Dispatch && !HasCall(edges, n) :: UnresolvedDispatch(n))
  }

  lemma LintsStep(nodes: seq<Node>, n: Node, edges: seq<Edge>)
    ensures LintsIn([], edges) == {}
    ensures LintsIn(nodes + [n], edges)
            == LintsIn(nodes, edges)
               + (if n.kind == Loop && !HasExit(edges, n) then {UnknownLoopExit(n)} else {})
               + (if n.kind == Dispatch && !HasCall(edges, n) then {UnresolvedDispatch(n)} else {})
  {
    hide HasExit, HasCall, UnknownLoopExit, UnresolvedDispatch;
  }

  /** The lint pass adds exactly those warnings. */
  method LintNodes(ir: RustBehaviorIr, findings0: seq<Diagnostic>) returns (findings: seq<Diagnostic>)
    ensures HasError(findings) <==> HasError(findings0)
    ensures Mild(findings) == Mild(findings0) + LintsIn(ir.nodes, ir.edges)
  {
    hide Mild, LintsIn, HasError, UnknownLoopExit, UnresolvedDispatch, HasExit, HasCall;
    findings := findings0;
    LintsStep([], Node("", "", Loop, None, []), ir.edges);
    assert ir.nodes[..0] == [];
    for i := 0 to |ir.nodes|
      invariant HasError(findings) <==> HasError(findings0)
      invariant Mild(findings) == Mild(findings0) + LintsIn(ir.nodes[..i], ir.edges)
    {
      var n := ir.nodes[i];
      assert ir.nodes[..i + 1] == ir.nodes[..i] + [n];
      LintsStep(ir.nodes[..i], n, ir.edges);
      findings := Push(findings, n.kind == Loop && !HasExit(ir.edges, n), UnknownLoopExit(n));
      findings := Push(findings, n.kind == Dispatch && !HasCall(ir.edges, n), UnresolvedDispatch(n));
    }
    assert ir.nodes[..|ir.nodes|] == ir.nodes;
  }

  ghost predicate StateAnchored(sources: seq<SourceFile>, s: MachineState) {
    s.anchor.Some? && AnchorOk(sources, s.anchor.value)
  }

  ghost predicate TransitionAnchored(sources: seq<SourceFile>, t: Transition) {
    t.anchor.Some? && AnchorOk(sources, t.anchor.value)
  }

  /** Missing anchors are reported for all states, then for all transitions; then every present
      anchor is checked. */
  method CheckMachineAnchors(ir: RustBehaviorIr, ghost digest: string -> string, sources: map<string, SourceFile>,
                             m: StateMachine, findings0: seq<Diagnostic>)
    returns (findings: seq<Diagnostic>)
    requires Known(ir, digest, sources, findings0)
    ensures HasError(findings) <==>
              (|| HasError(findings0)
               || (exists k :: 0 <= k < |m.states| && !StateAnchored(ir.sources, m.states[k]))
               || (exists k :: 0 <= k < |m.transitions| && !TransitionAnchored(ir.sources, m.transitions[k])))
    ensures Known(ir, digest, sources, findings)
    ensures Mild(findings) == Mild(findings0)
  {
    hide Mild, Known, HasError, AnchorOk, StateProvenance, TransitionProvenance;
    findings := findings0;
    for i := 0 to |m.states|
      invariant HasError(findings) <==> HasError(findings0) || exists k :: 0 <= k < i && m.states[k].anchor.None?
      invariant Mild(findings) == Mild(findings0)
    {
      findings := Push(findings, m.states[i].anchor.None?, StateProvenance(m, m.states[i]));
    }
    ghost var afterStates := HasError(findings);
    for i := 0 to |m.transitions|
      invariant HasError(findings) <==> afterStates || exists k :: 0 <= k < i && m.transitions[k].anchor.None?
      invariant Mild(findings) == Mild(findings0)
    {
      findings := Push(findings, m.transitions[i].anchor.None?, TransitionProvenance(m, m.transitions[i]));
    }
    StillKnown(ir, digest, sources, findings0, findings);
    ghost var present := HasError(findings);
    for i := 0 to |m.states|
      invariant HasError(findings)
                <==> present || exists k :: 0 <= k < i && !OptAnchorOk(ir.sources, m.states[k].anchor)
      invariant Mild(findings) == Mild(findings0)
      invariant Known(ir, digest, sources, findings)
    {
      findings := CheckOptAnchor(ir, digest, sources, m.states[i].anchor, findings);
    }
    ghost var checked := HasError(findings);
    for i := 0 to |m.transitions|
      invariant HasError(findings)
                <==> checked || exists k :: 0 <= k < i && !OptAnchorOk(ir.sources, m.transitions[k].anchor)
      invariant Mild(findings) == Mild(findings0)
      invariant Known(ir, digest, sources, findings)
    {
      findings := CheckOptAnchor(ir, digest, sources, m.transitions[i].anchor, findings);
    }
  }

  lemma AnchoredByIndex(sources: seq<SourceFile>, m: StateMachine)
    ensures MachineOk(sources, m) <==>
              && MachineValid(m)
              && (forall k :: 0 <= k < |m.states| ==> StateAnchored(sources, m.states[k]))
              && (forall k :: 0 <= k < |m.transitions| ==> TransitionAnchored(sources, m.transitions[k]))
  {
    hide AnchorOk, MachineValid;
  }

  ghost predicate MachinesPrefix(ir: RustBehaviorIr, n: nat)
    requires n <= |ir.machines|
  {
    DistinctBy(ir.machines[..n], MachineId) && forall k :: 0 <= k < n ==> MachineOk(ir.sources, ir.machines[k])
  }

  lemma MachinesEnds(ir: RustBehaviorIr)
    ensures MachinesPrefix(ir, 0)
    ensures MachinesPrefix(ir, |ir.machines|) <==> MachinesValid(ir)
  {
    hide MachineOk;
    assert ir.machines[..|ir.machines|] == ir.machines;
  }

  ghost function IdsBefore(machines: seq<StateMachine>, n: nat): set<string>
    requires n <= |machines|
  {
    set k | 0 <= k < n :: machines[k].id
  }

  lemma NoIds(machines: seq<StateMachine>)
    ensures IdsBefore(machines, 0) == {} && UnreachableIn(machines, 0) == {}
  {
  }

  lemma NextIds(machines: seq<StateMachine>, n: nat)
    requires n < |machines|
    ensures IdsBefore(machines, n + 1) == IdsBefore(machines, n) + {machines[n].id}
  {
  }

  lemma MachinesStep(ir: RustBehaviorIr, n: nat, ids: set<string>)
    requires n < |ir.machines| && ids == IdsBefore(ir.machines, n)
    ensures var m := ir.machines[n];
            MachinesPrefix(ir, n + 1) <==> MachinesPrefix(ir, n) && m.id !in ids && MachineOk(ir.sources, m)
  {
    hide MachineOk;
    var m := ir.machines[n];
    assert ir.machines[..n + 1] == ir.machines[..n] + [m];
    DistinctStep(ir.machines[..n], m, MachineId);
    assert (exists y :: y in ir.machines[..n] && MachineId(y) == MachineId(m)) <==> m.id in ids by {
      if m.id in ids {
        var k :| 0 <= k < n && ir.machines[k].id == m.id;
        assert ir.machines[k] in ir.machines[..n];
      }
      if y :| y in ir.machines[..n] && MachineId(y) == MachineId(m) {
        var k :| 0 <= k < n && ir.machines[k] == y;
      }
    }
  }

  /** The unreachable-state warnings of the machines. */
  ghost function UnreachableIn(machines: seq<StateMachine>, n: nat): set<Diagnostic>
    requires n <= |machines|
  {
    if n == 0 then {} else UnreachableIn(machines, n - 1) + Unreachables(machines[n - 1])
  }

  lemma UnreachableNext(machines: seq<StateMachine>, n: nat)
    requires n < |machines|
    ensures UnreachableIn(machines, 0) == {}
    ensures UnreachableIn(machines, n + 1) == UnreachableIn(machines, n) + Unreachables(machines[n])
  {
    hide Unreachables;
  }

  lemma ExtendMild(a: seq<Diagnostic>, b: seq<Diagnostic>)
    ensures Mild(a + b) == Mild(a) + Mild(b)
  {
  }

  method CheckMachine(ir: RustBehaviorIr, ghost digest: string -> string, sources: map<string, SourceFile>,
                      m: StateMachine, repeated: bool, findings0: seq<Diagnostic>)
    returns (findings: seq<Diagnostic>)
    requires Known(ir, digest, sources, findings0)
    ensures HasError(findings) <==> HasError(findings0) || repeated || !MachineOk(ir.sources, m)
    ensures Mild(findings) == Mild(findings0) + Unreachables(m)
    ensures Known(ir, digest, sources, findings)
  {
    AnchoredByIndex(ir.sources, m);
    hide *;
    findings := Push(findings0, repeated, DuplicateMachine(m));
    var structural := MachineValidation.Validate(m);
    Extend(findings, structural);
    ExtendMild(findings, structural);
    findings := findings + structural;
    StillKnown(ir, digest, sources, findings0, findings);
    findings := CheckMachineAnchors(ir, digest, sources, m, findings);
  }

  method CheckMachines(ir: RustBehaviorIr, ghost digest: string -> string, sources: map<string, SourceFile>,
                       findings0: seq<Diagnostic>)
    returns (findings: seq<Diagnostic>)
    requires Known(ir, digest, sources, findings0)
    ensures HasError(findings) <==> HasError(findings0) || !MachinesValid(ir)
    ensures Mild(findings) == Mild(findings0) + UnreachableIn(ir.machines, |ir.machines|)
  {
    findings := findings0;
    var ids: set<string> := {};
    MachinesEnds(ir);
    NoIds(ir.machines);
    hide *;
    for i := 0 to |ir.machines|
      invariant ids == IdsBefore(ir.machines, i)
      invariant HasError(findings) <==> HasError(findings0) || !MachinesPrefix(ir, i)
      invariant Mild(findings) == Mild(findings0) + UnreachableIn(ir.machines, i)
      invariant Known(ir, digest, sources, findings)
    {
      var m := ir.machines[i];
      MachinesStep(ir, i, ids);
      NextIds(ir.machines, i);
      UnreachableNext(ir.machines, i);
      findings := CheckMachine(ir, digest, sources, m, m.id in ids, findings);
      ids := ids + {m.id};
    }
  }

  lemma Extend(a: seq<Diagnostic>, b: seq<Diagnostic>)
    ensures HasError(a + b) <==> HasError(a) || HasError(b)
  {
    if HasError(a) || HasError(b) {
      var d :| (d in a || d in b) && d.severity == Error;
      assert d in a + b;
    }
  }

  /** `RustBehaviorIr::validate`: extractor diagnostics plus every finding, sorted and deduplicated. */
  method Validate(ir: RustBehaviorIr, digest: string -> string) returns (findings: seq<Diagnostic>)
    ensures HasError(findings) <==> !IrValid(ir, digest)
    ensures Mild(findings)
            == Mild(ir.diagnostics) + UncertainIn(ir.edges, NodeIds(ir.nodes)) + LintsIn(ir.nodes, ir.edges)
                              + UnreachableIn(ir.machines, |ir.machines|)
    ensures StrictlySorted(findings, DiagnosticKey)
  {
    findings := ir.diagnostics;
    hide Mild, UncertainIn, LintsIn, UnreachableIn, NodeIds, HeaderValid, SourcesValid, DiagnosticsValid, NodesValid,
      EdgesValid, Acyclic, MachinesValid, OnCycle, ContainmentEdges, ContainsEdges, SourceMap, NodeMap, DiagnosticKey;
    findings := CheckHeader(ir, findings);
    ghost var header := HasError(findings);
    var sources;
    findings, sources := CheckSources(ir, digest, findings);
    assert Known(ir, digest, sources, findings);
    findings := CheckDiagnostics(ir, digest, sources, findings);
    ErrorDiagnostics(ir);
    var nodes;
    findings, nodes := CheckNodes(ir, digest, sources, findings);
    NodesAreKnown(ir, nodes, findings);
    NodeMapKeys(ir.nodes, nodes);
    var contains;
    findings, contains := CheckEdges(ir, digest, sources, nodes, findings);
    ghost var before := findings;
    findings := ReportCycles(ir, contains, findings);
    findings := LintNodes(ir, findings);
    StillKnown(ir, digest, sources, before, findings);
    findings := CheckMachines(ir, digest, sources, findings);
    Tidy(findings);
    findings := Dedup(Sort(findings, DiagnosticKey));
  }

  lemma ErrorDiagnostics(ir: RustBehaviorIr)
    ensures HasError(ir.diagnostics) ==> !DiagnosticsValid(ir)
  {
    hide OptAnchorOk, Nonempty;
  }

  lemma NodeMapKeys(nodes: seq<Node>, m: map<string, Node>)
    requires NodeMap(nodes, |nodes|, m)
    ensures m.Keys == NodeIds(nodes)
  {
    assert nodes[..|nodes|] == nodes;
  }

  lemma NodesAreKnown(ir: RustBehaviorIr, nodes: map<string, Node>, findings: seq<Diagnostic>)
    requires NodeMap(ir.nodes, |ir.nodes|, nodes) && (HasError(findings) || NodesValid(ir))
    ensures NodesKnown(ir, nodes, findings)
  {
  }

  /** Sorting and deduplicating the findings keeps the verdict. */
  lemma Tidy(findings: seq<Diagnostic>)
    ensures var tidy := Dedup(Sort(findings, DiagnosticKey));
            && StrictlySorted(tidy, DiagnosticKey)
            && (forall d :: d in tidy <==> d in findings)
            && (HasError(tidy) <==> HasError(findings)) && Mild(tidy) == Mild(findings)
  {
    var sorted := Sort(findings, DiagnosticKey);
    SortKeepsElements(findings, DiagnosticKey);
    SortSorts(findings, DiagnosticKey);
    DedupKeeps(sorted);
    forall x, y | x in sorted && y in sorted && DiagnosticKey(x) == DiagnosticKey(y) ensures x == y {
      DiagnosticKeyInjective(x, y);
    }
    DedupStrict(sorted, DiagnosticKey);
    hide DiagnosticKey, Sort, Dedup;
  }

  method EnsureValid(ir: RustBehaviorIr, digest: string -> string) returns (ok: bool)
    ensures ok <==> IrValid(ir, digest)
  {
    hide IrValid;
    var findings := Validate(ir, digest);
    ok := NoErrors(findings);
  }
}
