/** The behaviour IR of `crates/kr0ki-behavior/src/lib.rs`, and how its strings are read. */
module BehaviorIr {
  import opened Ordering
  import opened Wrappers

  datatype RustBehaviorIr = RustBehaviorIr(
    schemaVersion: nat,
    provenance: Provenance,
    sources: seq<SourceFile>,
    nodes: seq<Node>,
    edges: seq<Edge>,
    diagnostics: seq<Diagnostic>,
    machines: seq<StateMachine>)

  datatype Provenance = Provenance(revision: string, treeDigest: string, toolchain: string, extractor: string,
                                   config: map<string, string>)

  datatype SourceFile = SourceFile(path: string, sha256: string, content: string)

  /** Byte offsets into the UTF-8 text of a source file. */
  datatype Anchor = Anchor(file: string, symbol: string, start: nat, end: nat)

  datatype SourceAnnotation = SourceAnnotation(path: string, text: string, anchor: Anchor)

  datatype Node = Node(id: string, name: string, kind: NodeKind, anchor: Option<Anchor>,
                       annotations: seq<SourceAnnotation>)

  datatype NodeKind =
    | Module | Type | Field | AssociatedType | Trait | Function | Action | Decision | Merge | Loop | Exit | Dispatch
    | State | External

  datatype Edge = Edge(id: string, from: string, to: string, kind: EdgeKind, guard: Option<string>,
                       resolution: Resolution, anchor: Anchor)

  datatype EdgeKind =
    | Contains | Satisfies | Requires | GovernedBy | Calls | Flow | Branch | Back | ExitEdge | TransitionEdge

  datatype Resolution = Resolved | Inferred | Unresolved

  datatype Severity = Error | Warning | Info

  datatype Diagnostic = Diagnostic(code: string, severity: Severity, message: string, anchor: Option<Anchor>)

  datatype StateMachine = StateMachine(id: string, name: string, initial: string, states: seq<MachineState>,
                                       transitions: seq<Transition>)

  datatype MachineState = MachineState(id: string, terminal: bool, anchor: Option<Anchor>)

  datatype Transition = Transition(id: string, from: string, to: string, event: string, guard: Option<string>,
                                   effect: Option<string>, anchor: Option<Anchor>)

  // ---------------------------------------------------------------- findings

  /** The findings below error level. */
  ghost function Mild(findings: seq<Diagnostic>): set<Diagnostic> {
    set d | d in findings && d.severity != Error
  }

  ghost predicate HasError(findings: seq<Diagnostic>) {
    exists d :: d in findings && d.severity == Error
  }

  /** Push a finding when `bad` holds. */
  function Report(findings: seq<Diagnostic>, bad: bool, d: Diagnostic): (r: seq<Diagnostic>)
    ensures forall x :: x in r <==> x in findings || (bad && x == d)
    ensures HasError(r) <==> HasError(findings) || (bad && d.severity == Error)
  {
    if bad then findings + [d] else findings
  }

  /** `ensure_valid`: no finding of error severity. */
  method NoErrors(findings: seq<Diagnostic>) returns (ok: bool)
    ensures ok <==> !HasError(findings)
  {
    var errors: seq<Diagnostic> := [];
    for k := 0 to |findings|
      invariant errors == [] <==> forall j :: 0 <= j < k ==> findings[j].severity != Error
    {
      if findings[k].severity == Error { errors := errors + [findings[k]]; }
    }
    ok := errors == [];
  }

  // ---------------------------------------------------------------- strings

  /** Unicode `White_Space`, as `str::trim` uses it. */
  predicate IsWhitespace(c: char) {
    var u := c as int;
    || 9 <= u <= 13 || u == 32 || u == 0x85 || u == 0xA0 || u == 0x1680 || 0x2000 <= u <= 0x200A
    || u == 0x2028 || u == 0x2029 || u == 0x202F || u == 0x205F || u == 0x3000
  }

  predicate Nonempty(s: string) {
    exists k :: 0 <= k < |s| && !IsWhitespace(s[k])
  }

  predicate Filled(s: Option<string>) {
    s.Some? ==> Nonempty(s.value)
  }

  // ---------------------------------------------------------------- derived orders

  function AnchorKey(a: Anchor): Key {
    StrKey(a.file) + (StrKey(a.symbol) + [a.start, a.end])
  }

  function OptAnchorKey(a: Option<Anchor>): Key {
    if a.None? then [0] else [1] + AnchorKey(a.value)
  }

  function SeverityKey(s: Severity): int {
    match s case Error => 0 case Warning => 1 case Info => 2
  }

  function DiagnosticKey(d: Diagnostic): Key {
    StrKey(d.code) + ([SeverityKey(d.severity)] + (StrKey(d.message) + OptAnchorKey(d.anchor)))
  }

  function AnnotationKey(a: SourceAnnotation): Key {
    StrKey(a.path) + (StrKey(a.text) + AnchorKey(a.anchor))
  }

  lemma AnchorKeyInjective(a: Anchor, b: Anchor)
    requires AnchorKey(a) == AnchorKey(b)
    ensures a == b
  {
    FieldInjective(a.file, b.file, StrKey(a.symbol) + [a.start, a.end], StrKey(b.symbol) + [b.start, b.end]);
    FieldInjective(a.symbol, b.symbol, [a.start, a.end], [b.start, b.end]);
    assert [a.start, a.end][0] == [b.start, b.end][0] && [a.start, a.end][1] == [b.start, b.end][1];
  }

  lemma AnnotationKeyInjective(a: SourceAnnotation, b: SourceAnnotation)
    requires AnnotationKey(a) == AnnotationKey(b)
    ensures a == b
  {
    FieldInjective(a.path, b.path, StrKey(a.text) + AnchorKey(a.anchor), StrKey(b.text) + AnchorKey(b.anchor));
    FieldInjective(a.text, b.text, AnchorKey(a.anchor), AnchorKey(b.anchor));
    AnchorKeyInjective(a.anchor, b.anchor);
  }

  lemma OptAnchorKeyInjective(a: Option<Anchor>, b: Option<Anchor>)
    requires OptAnchorKey(a) == OptAnchorKey(b)
    ensures a == b
  {
    assert OptAnchorKey(a)[0] == OptAnchorKey(b)[0];
    if a.Some? {
      assert AnchorKey(a.value) == OptAnchorKey(a)[1..] && AnchorKey(b.value) == OptAnchorKey(b)[1..];
      AnchorKeyInjective(a.value, b.value);
    }
  }

  lemma DiagnosticKeyInjective(a: Diagnostic, b: Diagnostic)
    requires DiagnosticKey(a) == DiagnosticKey(b)
    ensures a == b
  {
    var x, y := StrKey(a.message) + OptAnchorKey(a.anchor), StrKey(b.message) + OptAnchorKey(b.anchor);
    FieldInjective(a.code, b.code, [SeverityKey(a.severity)] + x, [SeverityKey(b.severity)] + y);
    assert ([SeverityKey(a.severity)] + x)[0] == ([SeverityKey(b.severity)] + y)[0];
    assert x == ([SeverityKey(a.severity)] + x)[1..] && y == ([SeverityKey(b.severity)] + y)[1..];
    FieldInjective(a.message, b.message, OptAnchorKey(a.anchor), OptAnchorKey(b.anchor));
    OptAnchorKeyInjective(a.anchor, b.anchor);
  }

  // ---------------------------------------------------------------- what the derived orders are

  /** Field by field: file, symbol, start, end. */
  predicate AnchorLe(a: Anchor, b: Anchor) {
    if a.file != b.file then Before(a.file, b.file)
    else if a.symbol != b.symbol then Before(a.symbol, b.symbol)
    else if a.start != b.start then a.start < b.start
    else a.end <= b.end
  }

  /** No anchor comes before any. */
  predicate OptAnchorLe(a: Option<Anchor>, b: Option<Anchor>) {
    a.None? || (b.Some? && AnchorLe(a.value, b.value))
  }

  /** Path, text, anchor. */
  predicate AnnotationLe(a: SourceAnnotation, b: SourceAnnotation) {
    if a.path != b.path then Before(a.path, b.path)
    else if a.text != b.text then Before(a.text, b.text)
    else AnchorLe(a.anchor, b.anchor)
  }

  /** Code, severity (errors, then warnings, then the rest), message, anchor. */
  predicate DiagnosticLe(a: Diagnostic, b: Diagnostic) {
    if a.code != b.code then Before(a.code, b.code)
    else if a.severity != b.severity then a.severity.Error? || (a.severity.Warning? && b.severity.Info?)
    else if a.message != b.message then Before(a.message, b.message)
    else OptAnchorLe(a.anchor, b.anchor)
  }

  lemma PairLe(s: int, e: int, t: int, f: int)
    ensures Le([s, e], [t, f]) <==> s < t || (s == t && e <= f)
  {
    assert [s, e][1..] == [e] && [t, f][1..] == [f] && [e][1..] == [] && [f][1..] == [];
    assert Le([e], [f]) <==> e <= f;
  }

  lemma AnchorOrder(a: Anchor, b: Anchor)
    ensures Le(AnchorKey(a), AnchorKey(b)) <==> AnchorLe(a, b)
  {
    FieldOrder(a.file, b.file, StrKey(a.symbol) + [a.start, a.end], StrKey(b.symbol) + [b.start, b.end]);
    FieldOrder(a.symbol, b.symbol, [a.start, a.end], [b.start, b.end]);
    PairLe(a.start, a.end, b.start, b.end);
    hide StrKey, Le, Before;
  }

  lemma OptAnchorOrder(a: Option<Anchor>, b: Option<Anchor>)
    ensures Le(OptAnchorKey(a), OptAnchorKey(b)) <==> OptAnchorLe(a, b)
  {
    if a.Some? && b.Some? {
      AnchorOrder(a.value, b.value);
      HeadLe(1, 1, AnchorKey(a.value), AnchorKey(b.value));
      hide AnchorKey, AnchorLe;
    }
  }

  lemma HeadLe(h: int, i: int, x: Key, y: Key)
    ensures Le([h] + x, [i] + y) <==> h < i || (h == i && Le(x, y))
  {
    assert ([h] + x)[1..] == x && ([i] + y)[1..] == y;
  }

  lemma AnnotationOrder(a: SourceAnnotation, b: SourceAnnotation)
    ensures Le(AnnotationKey(a), AnnotationKey(b)) <==> AnnotationLe(a, b)
  {
    FieldOrder(a.path, b.path, StrKey(a.text) + AnchorKey(a.anchor), StrKey(b.text) + AnchorKey(b.anchor));
    FieldOrder(a.text, b.text, AnchorKey(a.anchor), AnchorKey(b.anchor));
    AnchorOrder(a.anchor, b.anchor);
    hide StrKey, Le, Before, AnchorKey, AnchorLe;
  }

  lemma DiagnosticOrder(a: Diagnostic, b: Diagnostic)
    ensures Le(DiagnosticKey(a), DiagnosticKey(b)) <==> DiagnosticLe(a, b)
  {
    var x, y := StrKey(a.message) + OptAnchorKey(a.anchor), StrKey(b.message) + OptAnchorKey(b.anchor);
    FieldOrder(a.code, b.code, [SeverityKey(a.severity)] + x, [SeverityKey(b.severity)] + y);
    HeadLe(SeverityKey(a.severity), SeverityKey(b.severity), x, y);
    FieldOrder(a.message, b.message, OptAnchorKey(a.anchor), OptAnchorKey(b.anchor));
    OptAnchorOrder(a.anchor, b.anchor);
    hide StrKey, Le, Before, OptAnchorKey, OptAnchorLe;
  }
}
