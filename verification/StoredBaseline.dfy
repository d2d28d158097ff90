/** `crates/kr0ki-core/src/flexo_reqif_sync.rs`: a requirement baseline as model elements, and the
    graph rebuilt from them. */
module StoredBaseline {
  import opened Ordering
  import opened Requirements
  import opened SyncEngine
  import opened Text
  import opened Wrappers

  // ---------------------------------------------------------------- identifiers

  /** `%` and `:` escaped, one whole-string replacement after the other. */
  function Escape(s: string): string {
    Replace(Replace(s, '%', "%25"), ':', "%3A")
  }

  /** `str::replace` of a three-character text by one character. */
  function ReplaceText(s: string, pattern: string, c: char): string
    requires |pattern| == 3
  {
    if |s| < 3 then s
    else if s[..3] == pattern then [c] + ReplaceText(s[3..], pattern, c)
    else [s[0]] + ReplaceText(s[1..], pattern, c)
  }

  function Unescape(s: string): string {
    ReplaceText(ReplaceText(s, "%3A", ':'), "%25", '%')
  }

  lemma EscapeConcat(s: string, t: string)
    ensures Escape(s + t) == Escape(s) + Escape(t)
  {
    ReplaceConcat(s, t, '%', "%25");
    ReplaceConcat(Replace(s, '%', "%25"), Replace(t, '%', "%25"), ':', "%3A");
    hide Replace;
  }

  lemma EscapeOne(c: char)
    ensures Escape([c]) == if c == '%' then "%25" else if c == ':' then "%3A" else [c]
  {
    ReplaceOne(c, '%', "%25");
    ReplaceOne(c, ':', "%3A");
    if c == '%' { ReplaceAbsent("%25", ':', "%3A"); }
    hide Replace;
  }

  /** Undoing the colons leaves the percent signs escaped. */
  lemma {:induction false} ColonsBack(s: string)
    ensures ReplaceText(Escape(s), "%3A", ':') == Replace(s, '%', "%25")
  {
    if s == "" {
    } else {
      var c, rest := s[0], s[1..];
      assert s == [c] + rest;
      EscapeConcat([c], rest);
      EscapeOne(c);
      ReplaceConcat([c], rest, '%', "%25");
      ReplaceOne(c, '%', "%25");
      ColonsBack(rest);
      hide Escape, Replace;
      ColonStep(c, Escape(rest));
    }
  }

  lemma {:induction false} NoMatch(c: char, rest: string, pattern: string, d: char)
    requires |pattern| == 3 && c != pattern[0]
    ensures ReplaceText([c] + rest, pattern, d) == [c] + ReplaceText(rest, pattern, d)
  {
    var s := [c] + rest;
    assert s[1..] == rest;
    if |s| < 3 {
      assert ReplaceText(rest, pattern, d) == rest;
    } else {
      assert s[..3][0] == c;
    }
  }

  lemma {:induction false} ColonStep(c: char, rest: string)
    ensures ReplaceText((if c == '%' then "%25" else if c == ':' then "%3A" else [c]) + rest, "%3A", ':')
            == (if c == '%' then "%25" else [c]) + ReplaceText(rest, "%3A", ':')
  {
    if c == '%' {
      var s := "%25" + rest;
      assert s[..3] == "%25" && s[1..] == ['2'] + (['5'] + rest);
      NoMatch('2', ['5'] + rest, "%3A", ':');
      NoMatch('5', rest, "%3A", ':');
    } else if c == ':' {
      var s := "%3A" + rest;
      assert s[..3] == "%3A" && s[3..] == rest;
    } else {
      NoMatch(c, rest, "%3A", ':');
    }
  }

  lemma {:induction false} PercentsBack(s: string)
    ensures ReplaceText(Replace(s, '%', "%25"), "%25", '%') == s
  {
    if s == "" {
    } else {
      var c, rest := s[0], s[1..];
      assert s == [c] + rest;
      ReplaceConcat([c], rest, '%', "%25");
      ReplaceOne(c, '%', "%25");
      PercentsBack(rest);
      var tail := Replace(rest, '%', "%25");
      hide Replace;
      if c == '%' {
        var t := "%25" + tail;
        assert t[..3] == "%25" && t[3..] == tail;
      } else {
        NoMatch(c, tail, "%25", '%');
      }
    }
  }

  /** Unescaping undoes escaping, for every string. */
  lemma UnescapeEscape(s: string)
    ensures Unescape(Escape(s)) == s
  {
    hide Escape, ReplaceText;
    ColonsBack(s);
    PercentsBack(s);
  }

  lemma {:induction false} NoColon(s: string)
    ensures ':' !in Escape(s)
  {
    if s != "" {
      assert s == [s[0]] + s[1..];
      EscapeConcat([s[0]], s[1..]);
      EscapeOne(s[0]);
      hide Escape;
      NoColon(s[1..]);
    }
  }

  function BaselinePrefix(baseline: string): string {
    "reqif:" + Escape(baseline) + ":"
  }

  function RequirementIdentifier(baseline: string, requirement: string): string {
    BaselinePrefix(baseline) + Escape(requirement)
  }

  lemma EscapeInjective(s: string, t: string)
    requires Escape(s) == Escape(t)
    ensures s == t
  {
    UnescapeEscape(s);
    UnescapeEscape(t);
  }

  /** The first colon after a colon-free text ends it. */
  lemma UpToColon(a: string, b: string, rest: string)
    requires ':' !in a && ':' !in b && a + ":" <= b + ":" + rest
    ensures a == b
  {
    var s := b + ":" + rest;
    assert s[|a|] == ':' && s[|b|] == ':';
    assert forall k :: 0 <= k < |a| ==> s[k] == a[k] && a[k] != ':';
    assert forall k :: 0 <= k < |b| ==> s[k] == b[k] && b[k] != ':';
    assert |a| == |b|;
    assert s[..|a|] == a && s[..|b|] == b;
  }

  /** A baseline's prefix matches its own identifiers only. */
  lemma PrefixIsOwn(b: string, c: string, requirement: string)
    ensures BaselinePrefix(b) <= RequirementIdentifier(c, requirement) <==> b == c
  {
    NoColon(b);
    NoColon(c);
    hide Escape;
    if BaselinePrefix(b) <= RequirementIdentifier(c, requirement) {
      var p, i := BaselinePrefix(b), RequirementIdentifier(c, requirement);
      assert p[6..] == Escape(b) + ":" && i[6..] == Escape(c) + ":" + Escape(requirement);
      assert p[6..] <= i[6..];
      UpToColon(Escape(b), Escape(c), Escape(requirement));
      EscapeInjective(b, c);
    }
  }

  /** Different requirements have different identifiers. */
  lemma IdentifierInjective(baseline: string, r: string, q: string)
    requires RequirementIdentifier(baseline, r) == RequirementIdentifier(baseline, q)
    ensures r == q
  {
    hide Escape, BaselinePrefix;
    var n := |BaselinePrefix(baseline)|;
    assert RequirementIdentifier(baseline, r)[n..] == Escape(r) && RequirementIdentifier(baseline, q)[n..] == Escape(q);
    EscapeInjective(r, q);
  }

  // ---------------------------------------------------------------- a requirement as an element

  /** How provenance, evidence and relation kinds are written to JSON and read back. */
  datatype Codec = Codec(
    provTo: Provenance -> Json, provFrom: Json -> Option<Provenance>,
    evidenceTo: EvidenceRef -> Json, evidenceFrom: Json -> Option<EvidenceRef>,
    kindTo: RelationKind -> Json, kindFrom: Json -> Option<RelationKind>)

  ghost predicate Faithful(c: Codec) {
    && (forall x :: c.provFrom(c.provTo(x)) == Some(x))
    && (forall x :: c.evidenceFrom(c.evidenceTo(x)) == Some(x))
    && (forall x :: c.kindFrom(c.kindTo(x)) == Some(x))
  }

  datatype FieldName =
    | NameField | TextField | BaselineField | RevisionField | DigestField | ProvenanceField | AttributesField
    | EvidenceField | RelationsField

  function NameOf(f: FieldName): string {
    match f
    case NameField => "name"
    case TextField => "text"
    case BaselineField => "reqif_baseline_id"
    case RevisionField => "reqif_baseline_revision"
    case DigestField => "reqif_source_sha256"
    case ProvenanceField => "reqif_provenance"
    case AttributesField => "reqif_attributes"
    case EvidenceField => "reqif_evidence"
    case RelationsField => "reqif_relations"
  }

  lemma NameOfInjective(f: FieldName, g: FieldName)
    requires NameOf(f) == NameOf(g)
    ensures f == g
  {
  }

  function RelationKey(r: Relation): Ordering.Key {
    StrKey(r.id)
  }

  function RequirementKey(r: Requirement): Ordering.Key {
    StrKey(r.id)
  }

  /** The asserted relations whose source is the requirement, in their order. */
  function Outgoing(relations: seq<Relation>, id: string): seq<Relation> {
    if relations == [] then []
    else
      var last := relations[|relations| - 1];
      Outgoing(relations[..|relations| - 1], id) + if last.source == id && last.authority.Asserted? then [last] else []
  }

  function IdKey(): string { "id" }
  function KindKey(): string { "kind" }
  function TargetKey(): string { "target" }

  function StoreRelation(c: Codec, r: Relation): Json {
    Obj(map[IdKey() := Str(r.id), KindKey() := c.kindTo(r.kind), TargetKey() := Str(r.target)])
  }

  function StoreRelations(c: Codec, rs: seq<Relation>): seq<Json> {
    seq(|rs|, i requires 0 <= i < |rs| => StoreRelation(c, rs[i]))
  }

  function StoreAll<T>(xs: seq<T>, f: T -> Json): seq<Json> {
    seq(|xs|, i requires 0 <= i < |xs| => f(xs[i]))
  }

  function StoreAttributes(attributes: map<string, string>): Json {
    Obj(map k | k in attributes :: Str(attributes[k]))
  }

  /** The value stored in each field; the import digest only when there is one. */
  function FieldValue(c: Codec, g: RequirementGraph, r: Requirement, f: FieldName): Option<Json> {
    match f
    case NameField => Some(Str(r.title))
    case TextField => Some(Arr([Str(r.text)]))
    case BaselineField => Some(Str(g.baseline.id))
    case RevisionField => Some(Str(g.baseline.revision))
    case DigestField => (match g.baseline.importSha256 case Some(sha) => Some(Str(sha)) case None => None)
    case ProvenanceField => Some(c.provTo(r.provenance))
    case AttributesField => Some(StoreAttributes(r.attributes))
    case EvidenceField => Some(Arr(StoreAll(r.evidence, c.evidenceTo)))
    case RelationsField => Some(Arr(StoreRelations(c, Sort(Outgoing(g.relations, r.id), RelationKey))))
  }

  function AllFields(): set<FieldName> {
    {NameField, TextField, BaselineField, RevisionField, DigestField, ProvenanceField, AttributesField, EvidenceField,
     RelationsField}
  }

  function Fields(c: Codec, g: RequirementGraph, r: Requirement): map<string, Json> {
    map f | f in AllFields() && FieldValue(c, g, r, f).Some? :: NameOf(f) := FieldValue(c, g, r, f).value
  }

  function ElementType(): string { "RequirementUsage" }

  function DesiredOf(c: Codec, g: RequirementGraph, r: Requirement): DesiredElement {
    DesiredElement(RequirementIdentifier(g.baseline.id, r.id), ElementType(), Fields(c, g, r))
  }

  /** `desired_elements`. */
  function DesiredElements(c: Codec, g: RequirementGraph): seq<DesiredElement> {
    seq(|g.requirements|, i requires 0 <= i < |g.requirements| => DesiredOf(c, g, g.requirements[i]))
  }

  // ---------------------------------------------------------------- reading elements back

  datatype FetchError = ExtensionDropped(identifier: string) | MissingField(identifier: string, name: string)
    | BadField(identifier: string, name: string)

  function Required<T>(e: Element, identifier: string, name: string, decode: Json -> Option<T>): Result<T, FetchError> {
    if name !in e.fields then Err(MissingField(identifier, name))
    else
      match decode(e.fields[name])
      case Some(x) => Ok(x)
      case None => Err(BadField(identifier, name))
  }

  /** An absent field is the default; a present but wrong one is still an error. */
  function Optional<T>(e: Element, identifier: string, name: string, decode: Json -> Option<T>,
                       default: T): Result<T, FetchError> {
    if name in e.fields then Required(e, identifier, name, decode) else Ok(default)
  }

  function DecodeString(j: Json): Option<string> {
    if j.Str? then Some(j.s) else None
  }

  function DecodeList<T>(items: seq<Json>, decode: Json -> Option<T>): Option<seq<T>> {
    if items == [] then Some([])
    else
      var rest, last := DecodeList(items[..|items| - 1], decode), decode(items[|items| - 1]);
      if rest.Some? && last.Some? then Some(rest.value + [last.value]) else None
  }

  function DecodeArray<T>(j: Json, decode: Json -> Option<T>): Option<seq<T>> {
    if j.Arr? then DecodeList(j.items, decode) else None
  }

  function DecodeAttributes(j: Json): Option<map<string, string>> {
    if j.Obj? && forall k :: k in j.members ==> j.members[k].Str?
    then Some(map k | k in j.members :: j.members[k].s) else None
  }

  datatype StoredRelation = StoredRelation(id: string, kind: RelationKind, target: string)

  function DecodeRelation(c: Codec, j: Json): Option<StoredRelation> {
    if !j.Obj? || IdKey() !in j.members || KindKey() !in j.members || TargetKey() !in j.members then None
    else if !j.members[IdKey()].Str? || !j.members[TargetKey()].Str? then None
    else
      match c.kindFrom(j.members[KindKey()])
      case Some(kind) => Some(StoredRelation(j.members[IdKey()].s, kind, j.members[TargetKey()].s))
      case None => None
  }

  function DecodeRelationList(c: Codec, items: seq<Json>): Option<seq<StoredRelation>> {
    if items == [] then Some([])
    else
      var rest, last := DecodeRelationList(c, items[..|items| - 1]), DecodeRelation(c, items[|items| - 1]);
      if rest.Some? && last.Some? then Some(rest.value + [last.value]) else None
  }

  function DecodeRelations(c: Codec, j: Json): Option<seq<StoredRelation>> {
    if j.Arr? then DecodeRelationList(c, j.items) else None
  }

  function JoinLines(parts: seq<string>): string {
    if parts == [] then "" else Join(parts, '\n')
  }

  /** `text` is a list of strings; a bare string is accepted too. */
  function DecodeText(j: Json): Option<string> {
    if j.Str? then Some(j.s)
    else
      match DecodeArray(j, DecodeString)
      case Some(parts) => Some(JoinLines(parts))
      case None => None
  }

  function IdentifierKey(): string { "identifier" }

  /** The elements whose identifier has the prefix, with it. */
  function ManagedOf(elements: seq<Element>, prefix: string): seq<(Element, string)> {
    if elements == [] then []
    else
      var e := elements[|elements| - 1];
      ManagedOf(elements[..|elements| - 1], prefix)
        + if Identifier(e.fields).Some? && prefix <= Identifier(e.fields).value
          then [(e, Identifier(e.fields).value)] else []
  }

  /** The first string one of the elements holds in a field. */
  function FirstField(managed: seq<(Element, string)>, name: string): Option<string> {
    if managed == [] then None
    else if name in managed[0].0.fields && managed[0].0.fields[name].Str? then Some(managed[0].0.fields[name].s)
    else FirstField(managed[1..], name)
  }

  function BaselineOf(baselineId: string, fallback: string, managed: seq<(Element, string)>): BaselineIdentity {
    var revision := FirstField(managed, NameOf(RevisionField));
    BaselineIdentity(
      baselineId,
      if revision.Some? then revision.value else fallback,
      FirstField(managed, NameOf(DigestField)),
      None)
  }

  function RelationFrom(id: string, provenance: Provenance, r: StoredRelation): Relation {
    Relation(r.id, id, r.target, r.kind, Asserted, provenance, None)
  }

  function RelationsFrom(id: string, provenance: Provenance, rs: seq<StoredRelation>): seq<Relation> {
    seq(|rs|, i requires 0 <= i < |rs| => RelationFrom(id, provenance, rs[i]))
  }

  /** One stored requirement and its relations, in the order the code reads the fields. */
  function ReadOne(c: Codec, baseline: BaselineIdentity, e: Element, identifier: string, id: string)
    : Result<(Requirement, seq<Relation>), FetchError>
  {
    if IdentifierKey() !in e.fields && NameOf(ProvenanceField) !in e.fields then Err(ExtensionDropped(identifier))
    else
      match Required(e, identifier, NameOf(ProvenanceField), c.provFrom)
      case Err(x) => Err(x)
      case Ok(provenance) =>
        match Optional(e, identifier, NameOf(AttributesField), DecodeAttributes, map[])
        case Err(x) => Err(x)
        case Ok(attributes) =>
          match Optional(e, identifier, NameOf(EvidenceField), (j: Json) => DecodeArray(j, c.evidenceFrom), [])
          case Err(x) => Err(x)
          case Ok(evidence) =>
            match Optional(e, identifier, NameOf(RelationsField), (j: Json) => DecodeRelations(c, j), [])
            case Err(x) => Err(x)
            case Ok(stored) =>
              match Required(e, identifier, NameOf(NameField), DecodeString)
              case Err(x) => Err(x)
              case Ok(title) =>
                match Required(e, identifier, NameOf(TextField), DecodeText)
                case Err(x) => Err(x)
                case Ok(text) =>
                  Ok((Requirement(id, title, text, baseline, provenance, attributes, evidence),
                      RelationsFrom(id, provenance, stored)))
  }

  function IdWithin(identifier: string, prefix: string): string {
    if prefix <= identifier then Unescape(identifier[|prefix|..]) else ""
  }

  /** All stored requirements and relations in element order, or the first error. */
  function ReadManaged(c: Codec, baseline: BaselineIdentity, prefix: string, managed: seq<(Element, string)>)
    : Result<(seq<Requirement>, seq<Relation>), FetchError>
  {
    if managed == [] then Ok(([], []))
    else
      var last := managed[|managed| - 1];
      match ReadManaged(c, baseline, prefix, managed[..|managed| - 1])
      case Err(x) => Err(x)
      case Ok(before) =>
        match ReadOne(c, baseline, last.0, last.1, IdWithin(last.1, prefix))
        case Err(x) => Err(x)
        case Ok(one) => Ok((before.0 + [one.0], before.1 + one.1))
  }

  function Rebuilt(c: Codec, baselineId: string, fallback: string,
                   elements: seq<Element>): Result<RequirementGraph, FetchError> {
    var managed := ManagedOf(elements, BaselinePrefix(baselineId));
    var baseline := BaselineOf(baselineId, fallback, managed);
    match ReadManaged(c, baseline, BaselinePrefix(baselineId), managed)
    case Err(x) => Err(x)
    case Ok(read) => Ok(RequirementGraph(baseline, Sort(read.0, RequirementKey), [], Sort(read.1, RelationKey)))
  }

  /** `requirement_graph_from_elements`. */
  method Rebuild(c: Codec, baselineId: string, fallback: string, elements: seq<Element>)
    returns (r: Result<RequirementGraph, FetchError>)
    ensures r == Rebuilt(c, baselineId, fallback, elements)
  {
    var prefix := BaselinePrefix(baselineId);
    var managed := SelectManaged(elements, prefix);
    var baseline := BaselineOf(baselineId, fallback, managed);
    var requirements: seq<Requirement> := [];
    var relations: seq<Relation> := [];
    hide ReadOne, IdWithin, Sort;
    for i := 0 to |managed|
      invariant ReadManaged(c, baseline, prefix, managed[..i]) == Ok((requirements, relations))
    {
      assert managed[..i + 1][..i] == managed[..i];
      var one := ReadOne(c, baseline, managed[i].0, managed[i].1, IdWithin(managed[i].1, prefix));
      match one {
        case Err(x) =>
          ErrorStays(c, baseline, prefix, managed, i + 1);
          return Err(x);
        case Ok(pair) =>
          requirements := requirements + [pair.0];
          relations := relations + pair.1;
      }
    }
    assert managed[..|managed|] == managed;
    r := Ok(RequirementGraph(baseline, Sort(requirements, RequirementKey), [], Sort(relations, RelationKey)));
  }

  method SelectManaged(elements: seq<Element>, prefix: string) returns (managed: seq<(Element, string)>)
    ensures managed == ManagedOf(elements, prefix)
  {
    managed := [];
    hide Identifier;
    for i := 0 to |elements|
      invariant managed == ManagedOf(elements[..i], prefix)
    {
      assert elements[..i + 1][..i] == elements[..i];
      var id := Identifier(elements[i].fields);
      if id.Some? && prefix <= id.value { managed := managed + [(elements[i], id.value)]; }
    }
    assert elements[..|elements|] == elements;
  }

  lemma {:induction false} ErrorStays(c: Codec, baseline: BaselineIdentity, prefix: string,
                                      managed: seq<(Element, string)>, i: nat)
    requires i <= |managed| && ReadManaged(c, baseline, prefix, managed[..i]).Err?
    ensures ReadManaged(c, baseline, prefix, managed) == ReadManaged(c, baseline, prefix, managed[..i])
    decreases |managed|
  {
    hide ReadOne, IdWithin;
    if i < |managed| {
      var rest := managed[..|managed| - 1];
      assert rest[..i] == managed[..i];
      ErrorStays(c, baseline, prefix, rest, i);
    } else {
      assert managed[..i] == managed;
    }
  }

  /** An element of the baseline that kept neither its `identifier` nor its provenance makes fetching
      fail: nothing is made up for it. */
  lemma DroppedRefused(c: Codec, baselineId: string, fallback: string, elements: seq<Element>, i: nat)
    requires var managed := ManagedOf(elements, BaselinePrefix(baselineId));
             i < |managed| && IdentifierKey() !in managed[i].0.fields && NameOf(ProvenanceField) !in managed[i].0.fields
    ensures Rebuilt(c, baselineId, fallback, elements).Err?
  {
    var prefix := BaselinePrefix(baselineId);
    var managed := ManagedOf(elements, prefix);
    var baseline := BaselineOf(baselineId, fallback, managed);
    assert managed[..i + 1][..i] == managed[..i] && managed[..i + 1][i] == managed[i];
    assert ReadManaged(c, baseline, prefix, managed[..i + 1]).Err?;
    hide ReadOne, IdWithin, ManagedOf, BaselineOf, BaselinePrefix;
    ErrorStays(c, baseline, prefix, managed, i + 1);
  }

  // ---------------------------------------------------------------- what the fields decode to

  lemma {:induction false} ListDecodes<T>(items: seq<Json>, decode: Json -> Option<T>)
    ensures DecodeList(items, decode).Some? <==> forall j :: j in items ==> decode(j).Some?
    ensures DecodeList(items, decode).Some? ==>
              var xs := DecodeList(items, decode).value;
              |xs| == |items| && forall i :: 0 <= i < |items| ==> decode(items[i]) == Some(xs[i])
    decreases |items|
  {
    if items != [] {
      var n := |items| - 1;
      assert items == items[..n] + [items[n]];
      ListDecodes(items[..n], decode);
    }
  }

  /** A stored text is a string as it is, or a list of strings and nothing else, put together as lines. */
  lemma TextExactly(j: Json, text: string)
    ensures DecodeText(j) == Some(text)
            <==> j == Str(text) || exists lines: seq<string> :: TextFromLines(j, lines, text)
  {
    if j.Arr? {
      ListDecodes(j.items, DecodeString);
      if DecodeText(j) == Some(text) {
        var lines := DecodeList(j.items, DecodeString).value;
        assert TextFromLines(j, lines, text);
      }
      if lines: seq<string> :| TextFromLines(j, lines, text) {
        assert forall x :: x in j.items ==> DecodeString(x).Some?;
        assert DecodeList(j.items, DecodeString).value == lines;
      }
    }
  }

  /** The list holds the lines; no line gives the empty text, and splitting at line feeds tells lines that
      contain none. */
  ghost predicate TextFromLines(j: Json, lines: seq<string>, text: string) {
    && j.Arr? && |j.items| == |lines| && (forall i :: 0 <= i < |lines| ==> j.items[i] == Str(lines[i]))
    && text == JoinLines(lines)
  }

  /** Lines put together are the lines again when split at line feeds. */
  lemma LinesBack(lines: seq<string>)
    requires forall line :: line in lines ==> '\n' !in line
    ensures if lines == [] then JoinLines(lines) == "" else Split(JoinLines(lines), '\n') == lines
  {
    if lines != [] { JoinSplit(lines, '\n'); }
  }

  predicate Decodes<T>(e: Element, name: string, decode: Json -> Option<T>) {
    name in e.fields && decode(e.fields[name]).Some?
  }

  /** What an element must hold to be read: provenance, name and text that decode, and attributes, evidence
      and relations that decode or are absent. */
  predicate Readable(c: Codec, e: Element) {
    && Decodes(e, NameOf(ProvenanceField), c.provFrom)
    && Decodes(e, NameOf(NameField), DecodeString)
    && Decodes(e, NameOf(TextField), DecodeText)
    && (NameOf(AttributesField) in e.fields ==> Decodes(e, NameOf(AttributesField), DecodeAttributes))
    && (NameOf(EvidenceField) in e.fields ==>
          Decodes(e, NameOf(EvidenceField), (j: Json) => DecodeArray(j, c.evidenceFrom)))
    && (NameOf(RelationsField) in e.fields ==>
          Decodes(e, NameOf(RelationsField), (j: Json) => DecodeRelations(c, j)))
  }

  /** An element is read exactly when it holds all that; what is absent comes back empty. */
  lemma ReadExactly(c: Codec, baseline: BaselineIdentity, e: Element, identifier: string, id: string)
    ensures var r := ReadOne(c, baseline, e, identifier, id);
            && (r.Ok? <==> Readable(c, e))
            && (r.Ok? ==>
                  var q := r.value.0;
                  && q.id == id && q.baseline == baseline
                  && Some(q.provenance) == c.provFrom(e.fields[NameOf(ProvenanceField)])
                  && Some(q.title) == DecodeString(e.fields[NameOf(NameField)])
                  && Some(q.text) == DecodeText(e.fields[NameOf(TextField)])
                  && (if NameOf(AttributesField) in e.fields
                      then Some(q.attributes) == DecodeAttributes(e.fields[NameOf(AttributesField)])
                        else q.attributes == map[])
                  && (if NameOf(EvidenceField) in e.fields
                      then Some(q.evidence) == DecodeArray(e.fields[NameOf(EvidenceField)], c.evidenceFrom)
                        else q.evidence == [])
                  && (if NameOf(RelationsField) in e.fields
                      then RelationsDecoded(c, e.fields[NameOf(RelationsField)], id, q.provenance, r.value.1)
                      else r.value.1 == []))
            && (r.Err? ==> Explains(c, e, identifier, r.error))
  {
    hide NameOf, DecodeAttributes, DecodeText, DecodeString, DecodeArray, DecodeRelations, IdentifierKey;
  }

  predicate RelationsDecoded(c: Codec, j: Json, id: string, provenance: Provenance, relations: seq<Relation>) {
    && DecodeRelations(c, j).Some? && |relations| == |DecodeRelations(c, j).value|
    && forall i :: 0 <= i < |relations| ==>
         var stored := DecodeRelations(c, j).value[i];
         relations[i] == Relation(stored.id, id, stored.target, stored.kind, Asserted, provenance, None)
  }

  /** The error is about the element, and names a field that is missing or wrong. */
  predicate Explains(c: Codec, e: Element, identifier: string, error: FetchError) {
    && error.identifier == identifier
    && (error.ExtensionDropped? ==> IdentifierKey() !in e.fields && NameOf(ProvenanceField) !in e.fields)
    && (error.MissingField? ==> error.name !in e.fields)
    && (error.BadField? ==> error.name in e.fields)
  }
}
