/** What a reported difference, a note and a counter of `crates/kr0ki-core/src/reqif_roundtrip.rs` say of
    the two graphs, kind by kind. */
module ReqifMeaning {
  import opened ReqifCompare
  import opened ReqifExport
  import opened Requirements
  import opened Wrappers

  /** `n` is the requirement that the reimported graph has under the id: the last one. */
  ghost predicate Counterpart(rs: seq<Requirement>, id: string, n: Requirement) {
    exists k :: 0 <= k < |rs| && CounterpartAt(rs, id, n, k)
  }

  predicate CounterpartAt(rs: seq<Requirement>, id: string, n: Requirement, k: nat)
    requires k < |rs|
  {
    rs[k] == n && n.id == id && forall j :: k < j < |rs| ==> rs[j].id != id
  }

  ghost predicate RelationCounterpart(rs: seq<Relation>, id: string, q: Relation) {
    exists k :: 0 <= k < |rs| && RelationAt(rs, id, q, k)
  }

  predicate RelationAt(rs: seq<Relation>, id: string, q: Relation, k: nat)
    requires k < |rs|
  {
    rs[k] == q && q.id == id && forall j :: k < j < |rs| ==> rs[j].id != id
  }

  lemma {:induction false} LastIsCounterpart(rs: seq<Requirement>, id: string)
    ensures LastRequirement(rs, id).None? <==> forall r :: r in rs ==> r.id != id
    ensures forall n :: LastRequirement(rs, id) == Some(n) <==> Counterpart(rs, id, n)
    decreases |rs|
  {
    if rs != [] {
      var last, rest := |rs| - 1, rs[..|rs| - 1];
      assert rs == rest + [rs[last]];
      LastIsCounterpart(rest, id);
      forall n ensures Counterpart(rs, id, n)
        <==> if rs[last].id == id then n == rs[last] else Counterpart(rest, id, n) {
        CounterpartSnoc(rest, rs[last], id, n);
      }
      hide Counterpart;
    }
  }

  lemma CounterpartSnoc(rest: seq<Requirement>, last: Requirement, id: string, n: Requirement)
    ensures Counterpart(rest + [last], id, n) <==> if last.id == id then n == last else Counterpart(rest, id, n)
  {
    var rs := rest + [last];
    assert forall j :: 0 <= j < |rest| ==> rs[j] == rest[j];
    if k :| 0 <= k < |rs| && CounterpartAt(rs, id, n, k) {
      assert rs[|rest|] == last;
      if last.id == id { assert k == |rest|; } else { assert CounterpartAt(rest, id, n, k); }
    }
    if last.id == id && n == last { assert CounterpartAt(rs, id, n, |rest|); }
    if last.id != id && Counterpart(rest, id, n) {
      var k :| 0 <= k < |rest| && CounterpartAt(rest, id, n, k);
      assert CounterpartAt(rs, id, n, k);
    }
  }

  lemma {:induction false} LastIsRelation(rs: seq<Relation>, id: string)
    ensures LastRelation(rs, id).None? <==> forall r :: r in rs ==> r.id != id
    ensures forall q :: LastRelation(rs, id) == Some(q) <==> RelationCounterpart(rs, id, q)
    decreases |rs|
  {
    if rs != [] {
      var last, rest := |rs| - 1, rs[..|rs| - 1];
      assert rs == rest + [rs[last]];
      LastIsRelation(rest, id);
      forall q
        ensures RelationCounterpart(rs, id, q)
                <==> if rs[last].id == id then q == rs[last] else RelationCounterpart(rest, id, q)
      {
        RelationSnoc(rest, rs[last], id, q);
      }
      hide RelationCounterpart;
    }
  }

  lemma RelationSnoc(rest: seq<Relation>, last: Relation, id: string, q: Relation)
    ensures RelationCounterpart(rest + [last], id, q)
            <==> if last.id == id then q == last else RelationCounterpart(rest, id, q)
  {
    var rs := rest + [last];
    assert forall j :: 0 <= j < |rest| ==> rs[j] == rest[j];
    if k :| 0 <= k < |rs| && RelationAt(rs, id, q, k) {
      assert rs[|rest|] == last;
      if last.id == id { assert k == |rest|; } else { assert RelationAt(rest, id, q, k); }
    }
    if last.id == id && q == last { assert RelationAt(rs, id, q, |rest|); }
    if last.id != id && RelationCounterpart(rest, id, q) {
      var k :| 0 <= k < |rest| && RelationAt(rest, id, q, k);
      assert RelationAt(rs, id, q, k);
    }
  }

  // ---------------------------------------------------------------- differences

  /** An original requirement and the reimported one of its id. */
  ghost predicate Pair(o: RequirementGraph, m: RequirementGraph, id: string, b: Requirement, n: Requirement) {
    b in o.requirements && b.id == id && Counterpart(m.requirements, id, n)
  }

  ghost predicate RelationPair(o: RequirementGraph, m: RequirementGraph, id: string, r: Relation, q: Relation) {
    r in o.relations && r.id == id && IsCarried(o, r) && RelationCounterpart(m.relations, id, q)
  }

  /** An asserted relation between requirements of the graph. */
  predicate IsCarried(o: RequirementGraph, r: Relation) {
    && r.authority.Asserted?
    && (exists b :: b in o.requirements && b.id == r.source) && (exists b :: b in o.requirements && b.id == r.target)
  }

  /** The attribute that the importer adds by itself: the statement as `text`, or a `subtypes` of
      `requirement` where the original has none. */
  predicate AddedByImporter(b: Requirement, key: string, value: string) {
    || (key == "text" && value == b.text)
    || (key == "subtypes" && value == "requirement" && "subtypes" !in b.attributes)
  }

  predicate Travels(p: Profile, b: Requirement, key: string) {
    key in b.attributes && Exportable(p, key)
  }

  predicate CameBack(b: Requirement, n: Requirement, key: string) {
    key in n.attributes && !AddedByImporter(b, key, n.attributes[key])
  }

  /** What a difference says. The value before is the original's, the one after the reimported graph's. */
  ghost predicate Says(p: Profile, o: RequirementGraph, m: RequirementGraph, d: Difference) {
    match d
    case MissingRequirement(id) =>
      (exists b :: b in o.requirements && b.id == id) && forall n :: n in m.requirements ==> n.id != id
    case ExtraRequirement(id) =>
      (exists n :: n in m.requirements && n.id == id) && forall b :: b in o.requirements ==> b.id != id
    case TitleChanged(id, x, y) => exists b, n :: Pair(o, m, id, b, n) && x == b.title && y == n.title && x != y
    case TextChanged(id, x, y) => exists b, n :: Pair(o, m, id, b, n) && x == b.text && y == n.text && x != y
    case AttributeLost(id, k) => exists b, n :: Pair(o, m, id, b, n) && Travels(p, b, k) && !CameBack(b, n, k)
    case AttributeAdded(id, k) => exists b, n :: Pair(o, m, id, b, n) && !Travels(p, b, k) && CameBack(b, n, k)
    case AttributeChanged(id, k, x, y) =>
      exists b, n :: Pair(o, m, id, b, n) && Travels(p, b, k) && CameBack(b, n, k)
                     && x == b.attributes[k] && y == n.attributes[k] && x != y
    case RelationLost(id) =>
      (exists r :: r in o.relations && r.id == id && IsCarried(o, r)) && forall q :: q in m.relations ==> q.id != id
    case RelationAdded(id) =>
      (exists q :: q in m.relations && q.id == id) && forall r :: r in o.relations && r.id == id ==> !IsCarried(o, r)
    case RelationChanged(id, field, x, y) =>
      exists r, q :: RelationPair(o, m, id, r, q) && x == FieldOf(r, field) && y == FieldOf(q, field) && x != y
  }

  function FieldOf(r: Relation, field: Field): string {
    match field
    case KindField => KindName(r.kind)
    case SourceField => r.source
    case TargetField => r.target
  }

  lemma CarriedExactly(o: RequirementGraph, r: Relation)
    ensures Carried(RequirementIds(o.requirements), r) <==> IsCarried(o, r)
  {
  }

  lemma SameAddition(b: Requirement, key: string, value: string)
    ensures IsAddition(b, key, value) <==> AddedByImporter(b, key, value)
  {
  }

  /** What a difference says of a requirement and its counterpart. */
  predicate SaysOf(p: Profile, b: Requirement, n: Requirement, d: Difference) {
    match d
    case TitleChanged(id, x, y) => x == b.title && y == n.title && x != y
    case TextChanged(id, x, y) => x == b.text && y == n.text && x != y
    case AttributeLost(id, k) => Travels(p, b, k) && !CameBack(b, n, k)
    case AttributeAdded(id, k) => !Travels(p, b, k) && CameBack(b, n, k)
    case AttributeChanged(id, k, x, y) =>
      Travels(p, b, k) && CameBack(b, n, k) && x == b.attributes[k] && y == n.attributes[k] && x != y
    case _ => false
  }

  /** The report of one requirement says of it what is so, and leaves nothing unsaid. */
  lemma RequirementSays(p: Profile, b: Requirement, n: Requirement, d: Difference)
    ensures d in RequirementDiffs(p, b, Some(n)) <==> d.id == b.id && SaysOf(p, b, n, d)
  {
    ExpectedTravels(p, b);
    ActualCameBack(b, n);
    hide Expected, Actual, Travels, CameBack;
  }

  lemma ExpectedTravels(p: Profile, b: Requirement)
    ensures forall k :: k in Expected(p, b) <==> Travels(p, b, k)
    ensures forall k :: k in Expected(p, b) ==> Expected(p, b)[k] == b.attributes[k]
  {
    hide Exportable;
  }

  lemma ActualCameBack(b: Requirement, n: Requirement)
    ensures forall k :: k in Actual(b, n) <==> CameBack(b, n, k)
    ensures forall k :: k in Actual(b, n) ==> Actual(b, n)[k] == n.attributes[k]
  {
    forall k | k in n.attributes
      ensures IsAddition(b, k, n.attributes[k]) <==> AddedByImporter(b, k, n.attributes[k])
    {
      SameAddition(b, k, n.attributes[k]);
    }
    hide IsAddition, AddedByImporter;
  }

  lemma RelationSays(r: Relation, q: Relation, d: Difference)
    ensures d in RelationDiffs(r, Some(q)) <==>
              d.RelationChanged? && d.id == r.id && d.before == FieldOf(r, d.field) && d.after == FieldOf(q, d.field)
              && d.before != d.after
  {
    hide KindName;
  }

  /** A difference is reported exactly when what it says is so. */
  lemma DifferencesExactly(p: Profile, o: RequirementGraph, m: RequirementGraph, d: Difference)
    ensures d in Differences(p, o, m) <==> Says(p, o, m, d)
  {
    hide Exportable, RequirementDiffs, RelationDiffs, LastRequirement, LastRelation, Counterpart, RelationCounterpart,
      IsCarried, Travels, CameBack, Carried, FieldOf;
    PartsSay(p, o, m, d);
    IdsSay(o, m);
    match d
    case MissingRequirement(id) =>
    case ExtraRequirement(id) =>
    case RelationLost(id) =>
    case RelationAdded(id) =>
    case RelationChanged(id, field, x, y) =>
    case _ =>
  }

  lemma IdsSay(o: RequirementGraph, m: RequirementGraph)
    ensures forall id :: id in RequirementIds(m.requirements) - RequirementIds(o.requirements) <==>
              (exists n :: n in m.requirements && n.id == id) && forall b :: b in o.requirements ==> b.id != id
    ensures forall id :: id in RelationIds(m.relations) - CarriedIds(RequirementIds(o.requirements), o.relations) <==>
              (exists q :: q in m.relations && q.id == id)
                && forall r :: r in o.relations && r.id == id ==> !IsCarried(o, r)
  {
    forall r ensures Carried(RequirementIds(o.requirements), r) <==> IsCarried(o, r) { CarriedExactly(o, r); }
    hide Carried, IsCarried;
  }

  /** The parts of the requirements and of the relations. */
  lemma PartsSay(p: Profile, o: RequirementGraph, m: RequirementGraph, d: Difference)
    ensures d in RequirementsPart(p, o.requirements, m) <==>
              !(d.ExtraRequirement? || d.RelationLost? || d.RelationAdded? || d.RelationChanged?) && Says(p, o, m, d)
    ensures d in RelationsPart(RequirementIds(o.requirements), o.relations, m) <==>
              (d.RelationLost? || d.RelationChanged?) && Says(p, o, m, d)
  {
    RequirementPartSays(p, o, m, d);
    RelationPartSays(p, o, m, d);
    hide RequirementsPart, RelationsPart, Says;
  }

  lemma RequirementPartSays(p: Profile, o: RequirementGraph, m: RequirementGraph, d: Difference)
    ensures d in RequirementsPart(p, o.requirements, m) <==>
              !(d.ExtraRequirement? || d.RelationLost? || d.RelationAdded? || d.RelationChanged?) && Says(p, o, m, d)
  {
    hide Exportable, LastRequirement, Counterpart, IsCarried, Travels, CameBack, RelationCounterpart, RequirementDiffs,
         Says;
    if b: Requirement :| b in o.requirements && d in RequirementDiffs(p, b, LastRequirement(m.requirements, b.id)) {
      ReportedIsSaid(p, o, m, b, d);
    }
    if !(d.ExtraRequirement? || d.RelationLost? || d.RelationAdded? || d.RelationChanged?) && Says(p, o, m, d) {
      SaidIsReported(p, o, m, d);
    }
  }

  lemma ReportedIsSaid(p: Profile, o: RequirementGraph, m: RequirementGraph, b: Requirement, d: Difference)
    requires b in o.requirements && d in RequirementDiffs(p, b, LastRequirement(m.requirements, b.id))
    ensures !(d.ExtraRequirement? || d.RelationLost? || d.RelationAdded? || d.RelationChanged?) && Says(p, o, m, d)
  {
    LastIsCounterpart(m.requirements, b.id);
    hide Exportable, LastRequirement, Counterpart, IsCarried, Travels, CameBack, RelationCounterpart;
    var after := LastRequirement(m.requirements, b.id);
    if after.Some? {
      RequirementSays(p, b, after.value, d);
      assert Pair(o, m, b.id, b, after.value);
    }
  }

  lemma SaidIsReported(p: Profile, o: RequirementGraph, m: RequirementGraph, d: Difference)
    requires !(d.ExtraRequirement? || d.RelationLost? || d.RelationAdded? || d.RelationChanged?) && Says(p, o, m, d)
    ensures d in RequirementsPart(p, o.requirements, m)
  {
    hide Exportable, LastRequirement, Counterpart, IsCarried, Travels, CameBack, RelationCounterpart, AttributeDiffs;
    if d.MissingRequirement? {
      var b :| b in o.requirements && b.id == d.id;
      LastIsCounterpart(m.requirements, b.id);
      assert LastRequirement(m.requirements, b.id) == None;
      assert d in RequirementDiffs(p, b, LastRequirement(m.requirements, b.id));
    } else {
      var b, n :| Pair(o, m, d.id, b, n) && SaysOf(p, b, n, d);
      LastIsCounterpart(m.requirements, b.id);
      RequirementSays(p, b, n, d);
      hide RequirementDiffs, SaysOf;
      assert d in RequirementDiffs(p, b, Some(n));
      assert LastRequirement(m.requirements, b.id) == Some(n);
      assert d in RequirementDiffs(p, b, LastRequirement(m.requirements, b.id));
    }
  }

  lemma RelationPartSays(p: Profile, o: RequirementGraph, m: RequirementGraph, d: Difference)
    ensures d in RelationsPart(RequirementIds(o.requirements), o.relations, m) <==>
              (d.RelationLost? || d.RelationChanged?) && Says(p, o, m, d)
  {
    var ids := RequirementIds(o.requirements);
    if d in RelationsPart(ids, o.relations, m) {
      var r: Relation :| r in o.relations && Carried(ids, r) && d in RelationDiffs(r, LastRelation(m.relations, r.id));
      RelationReported(p, o, m, r, d);
    }
    if d.RelationLost? && Says(p, o, m, d) { LostIsReported(p, o, m, d); }
    if d.RelationChanged? && Says(p, o, m, d) { ChangeIsReported(p, o, m, d); }
  }

  lemma RelationReported(p: Profile, o: RequirementGraph, m: RequirementGraph, r: Relation, d: Difference)
    requires r in o.relations && Carried(RequirementIds(o.requirements), r)
    requires d in RelationDiffs(r, LastRelation(m.relations, r.id))
    ensures (d.RelationLost? || d.RelationChanged?) && Says(p, o, m, d)
  {
    CarriedExactly(o, r);
    LastIsRelation(m.relations, r.id);
    var after := LastRelation(m.relations, r.id);
    if after.Some? { RelationSays(r, after.value, d); }
    hide Exportable, LastRelation, RelationCounterpart, Counterpart, IsCarried, Carried, Travels, CameBack,
      RequirementIds, FieldOf;
    if after.Some? {
      assert RelationPair(o, m, r.id, r, after.value);
    }
  }

  lemma LostIsReported(p: Profile, o: RequirementGraph, m: RequirementGraph, d: Difference)
    requires d.RelationLost? && Says(p, o, m, d)
    ensures d in RelationsPart(RequirementIds(o.requirements), o.relations, m)
  {
    var r :| r in o.relations && r.id == d.id && IsCarried(o, r);
    CarriedExactly(o, r);
    LastIsRelation(m.relations, r.id);
    hide Carried, IsCarried, LastRelation;
    assert LastRelation(m.relations, r.id) == None;
    assert d in RelationDiffs(r, LastRelation(m.relations, r.id));
  }

  lemma ChangeIsReported(p: Profile, o: RequirementGraph, m: RequirementGraph, d: Difference)
    requires d.RelationChanged? && Says(p, o, m, d)
    ensures d in RelationsPart(RequirementIds(o.requirements), o.relations, m)
  {
    var r, q :| RelationPair(o, m, d.id, r, q) && d.before == FieldOf(r, d.field) && d.after == FieldOf(q, d.field)
                && d.before != d.after;
    CarriedExactly(o, r);
    LastIsRelation(m.relations, r.id);
    RelationSays(r, q, d);
    hide Carried, IsCarried, LastRelation, RelationDiffs, RelationCounterpart;
    assert LastRelation(m.relations, r.id) == Some(q);
    assert d in RelationDiffs(r, LastRelation(m.relations, r.id));
  }

  // ---------------------------------------------------------------- notes

  /** What a note under a kind says of the id it lists. */
  ghost predicate Notes(p: Profile, o: RequirementGraph, m: RequirementGraph, kind: UnsupportedKind, x: string) {
    match kind
    case EvidenceNodes => exists e :: e in o.evidence && e.id == x
    case RequirementEvidenceRefs => exists b, n :: Pair(o, m, x, b, n) && b.evidence != []
    case NodeProvenance => exists b, n :: Pair(o, m, x, b, n) && b.provenance != n.provenance
    case AttributeKeyNotRepresentable =>
      exists b: Requirement, n, k :: Pair(o, m, b.id, b, n) && k in b.attributes && !Exportable(p, k)
        && x == b.id + ":" + k
    case NonAssertedRelations => exists r :: r in o.relations && r.id == x && !r.authority.Asserted?
    case RelationsToNonRequirements =>
      exists r :: r in o.relations && r.id == x && r.authority.Asserted? && !IsCarried(o, r)
    case RelationPromotion => exists r :: r in o.relations && r.id == x && IsCarried(o, r) && r.promotion.Some?
  }

  /** An id is listed under a kind exactly when the note is so. */
  lemma NotesExactly(p: Profile, o: RequirementGraph, m: RequirementGraph, kind: UnsupportedKind, x: string)
    ensures (kind, x) in Unsupported(p, o, m) <==> Notes(p, o, m, kind, x)
  {
    RequirementNotesSay(p, o, m, kind, x);
    RelationNotesSay(p, o, m, kind, x);
    hide NotesOf, RelationNotesOf, IsCarried, Counterpart, Exportable, Pair;
  }

  lemma RequirementNotesSay(p: Profile, o: RequirementGraph, m: RequirementGraph, kind: UnsupportedKind, x: string)
    ensures (kind, x) in NotesOf(p, o.requirements, m) <==>
              (kind.RequirementEvidenceRefs? || kind.NodeProvenance? || kind.AttributeKeyNotRepresentable?)
              && Notes(p, o, m, kind, x)
  {
    if (kind, x) in NotesOf(p, o.requirements, m) {
      var b: Requirement :|
        b in o.requirements && (kind, x) in RequirementNotes(p, b, LastRequirement(m.requirements, b.id));
      LastIsCounterpart(m.requirements, b.id);
      hide Exportable, LastRequirement, Counterpart;
      var n := LastRequirement(m.requirements, b.id).value;
      assert Pair(o, m, b.id, b, n);
      NoteOfOne(p, b, n, kind, x);
      hide RequirementNotes, Pair;
    }
    if kind.RequirementEvidenceRefs? || kind.NodeProvenance? || kind.AttributeKeyNotRepresentable? {
      if Notes(p, o, m, kind, x) { NoteIsListed(p, o, m, kind, x); }
    }
  }

  /** What one requirement contributes. */
  predicate OwnNote(p: Profile, b: Requirement, n: Requirement, kind: UnsupportedKind, x: string) {
    match kind
    case RequirementEvidenceRefs => x == b.id && b.evidence != []
    case NodeProvenance => x == b.id && b.provenance != n.provenance
    case AttributeKeyNotRepresentable => exists k :: k in b.attributes && !Exportable(p, k) && x == b.id + ":" + k
    case _ => false
  }

  lemma NoteOfOne(p: Profile, b: Requirement, n: Requirement, kind: UnsupportedKind, x: string)
    ensures (kind, x) in RequirementNotes(p, b, Some(n)) <==> OwnNote(p, b, n, kind, x)
  {
    hide Exportable;
  }

  lemma NoteIsListed(p: Profile, o: RequirementGraph, m: RequirementGraph, kind: UnsupportedKind, x: string)
    requires kind.RequirementEvidenceRefs? || kind.NodeProvenance? || kind.AttributeKeyNotRepresentable?
    requires Notes(p, o, m, kind, x)
    ensures (kind, x) in NotesOf(p, o.requirements, m)
  {
    hide Exportable, Counterpart;
    var b: Requirement, n :| Pair(o, m, b.id, b, n) && OwnNote(p, b, n, kind, x);
    LastIsCounterpart(m.requirements, b.id);
    NoteOfOne(p, b, n, kind, x);
    hide LastRequirement, RequirementNotes;
    assert LastRequirement(m.requirements, b.id) == Some(n);
    assert (kind, x) in RequirementNotes(p, b, LastRequirement(m.requirements, b.id));
  }

  lemma RelationNotesSay(p: Profile, o: RequirementGraph, m: RequirementGraph, kind: UnsupportedKind, x: string)
    ensures (kind, x) in RelationNotesOf(RequirementIds(o.requirements), o.relations) <==>
              (kind.NonAssertedRelations? || kind.RelationsToNonRequirements? || kind.RelationPromotion?)
              && Notes(p, o, m, kind, x)
  {
    var ids := RequirementIds(o.requirements);
    forall r ensures Carried(ids, r) <==> IsCarried(o, r) { CarriedExactly(o, r); }
    hide IsCarried, RequirementIds;
    if (kind.NonAssertedRelations? || kind.RelationsToNonRequirements? || kind.RelationPromotion?)
      && Notes(p, o, m, kind, x) {
      var r :| r in o.relations && r.id == x && (kind, x) in RelationNotes(ids, r);
    }
  }

  // ---------------------------------------------------------------- additions and counters

  /** An importer addition is listed under its attribute exactly for the requirements that show it. */
  lemma AdditionsExactly(o: RequirementGraph, m: RequirementGraph, name: string, id: string)
    ensures (name, id) in AdditionsOf(o.requirements, m) <==>
              exists b, n :: Pair(o, m, id, b, n) && name in n.attributes
                && AddedByImporter(b, name, n.attributes[name])
  {
    forall b: Requirement
      ensures forall n :: LastRequirement(m.requirements, b.id) == Some(n) <==> Counterpart(m.requirements, b.id, n)
    {
      LastIsCounterpart(m.requirements, b.id);
    }
    hide LastRequirement, Counterpart;
    if b: Requirement :|
        b in o.requirements && (name, id) in RequirementAdditions(b, LastRequirement(m.requirements, b.id))
    {
      var n := LastRequirement(m.requirements, b.id).value;
      assert Pair(o, m, id, b, n);
      AdditionNamed(b, n, name, id);
    }
    if b, n :| Pair(o, m, id, b, n) && name in n.attributes && AddedByImporter(b, name, n.attributes[name]) {
      AdditionNamed(b, n, name, id);
      assert (name, id) in RequirementAdditions(b, LastRequirement(m.requirements, b.id));
    }
  }

  lemma AdditionNamed(b: Requirement, n: Requirement, name: string, id: string)
    ensures (name, id) in RequirementAdditions(b, Some(n)) <==>
              id == b.id && name in n.attributes && AddedByImporter(b, name, n.attributes[name])
  {
    assert TextKey() == "text" && Subtypes() == "subtypes";
  }

  ghost predicate Found(rs: seq<Requirement>, m: RequirementGraph, i: nat) {
    i < |rs| && exists n :: n in m.requirements && n.id == rs[i].id
  }

  /** The places of the requirements that have a counterpart. */
  ghost function FoundPlaces(rs: seq<Requirement>, m: RequirementGraph): set<nat> {
    set i: nat | i < |rs| && Found(rs, m, i)
  }

  /** The places of the relations that are carried. */
  ghost function CarriedPlaces(ids: set<string>, rs: seq<Relation>): set<nat> {
    set i: nat | i < |rs| && Carried(ids, rs[i])
  }

  /** The exportable attributes of the requirements that have a counterpart. */
  ghost function ComparedAttributes(p: Profile, rs: seq<Requirement>, m: RequirementGraph): set<(nat, string)> {
    set i: nat, k | i < |rs| && k in rs[i].attributes && ComparedAt(p, rs, m, i, k) :: (i, k)
  }

  ghost predicate ComparedAt(p: Profile, rs: seq<Requirement>, m: RequirementGraph, i: nat, k: string) {
    Found(rs, m, i) && Travels(p, rs[i], k)
  }

  /** The requirements compared are those with a counterpart. */
  lemma {:induction false} FoundExactly(rs: seq<Requirement>, m: RequirementGraph)
    ensures CountFound(rs, m) == |FoundPlaces(rs, m)|
    decreases |rs|
  {
    if rs == [] {
      assert FoundPlaces(rs, m) == {};
    } else {
      var n, rest := |rs| - 1, rs[..|rs| - 1];
      FoundExactly(rest, m);
      LastIsCounterpart(m.requirements, rs[n].id);
      FoundSnoc(rs, m);
      hide Counterpart, FoundPlaces;
      assert LastRequirement(m.requirements, rs[n].id).Some? <==> Found(rs, m, n);
    }
  }

  lemma FoundSnoc(rs: seq<Requirement>, m: RequirementGraph)
    requires rs != []
    ensures var n, rest := |rs| - 1, rs[..|rs| - 1];
            && n !in FoundPlaces(rest, m)
            && FoundPlaces(rs, m) == FoundPlaces(rest, m) + if Found(rs, m, n) then {n} else {}
  {
    var n, rest := |rs| - 1, rs[..|rs| - 1];
    assert forall i: nat :: i < n ==> (Found(rs, m, i) <==> Found(rest, m, i));
    hide Found;
  }

  /** The relations compared are those carried. */
  lemma {:induction false} CarriedCounted(ids: set<string>, rs: seq<Relation>)
    ensures CountCarried(ids, rs) == |CarriedPlaces(ids, rs)|
    decreases |rs|
  {
    hide Carried;
    if rs == [] {
      assert CarriedPlaces(ids, rs) == {};
    } else {
      var n, rest := |rs| - 1, rs[..|rs| - 1];
      CarriedCounted(ids, rest);
      assert CarriedPlaces(ids, rs) == CarriedPlaces(ids, rest) + if Carried(ids, rs[n]) then {n} else {};
    }
  }

  /** The attributes compared: each exportable one of each requirement with a counterpart. */
  lemma {:induction false} AttributesCounted(p: Profile, rs: seq<Requirement>, m: RequirementGraph)
    ensures CountAttributes(p, rs, m) == |ComparedAttributes(p, rs, m)|
    decreases |rs|
  {
    if rs == [] {
      assert ComparedAttributes(p, rs, m) == {};
    } else {
      var n, rest := |rs| - 1, rs[..|rs| - 1];
      AttributesCounted(p, rest, m);
      LastIsCounterpart(m.requirements, rs[n].id);
      ExpectedTravels(p, rs[n]);
      AttributesSnoc(p, rs, m);
      hide Exportable, Counterpart, ComparedAttributes, Expected, Travels;
      var own := AllWith(n, Expected(p, rs[n]).Keys);
      PairsCounted(n, Expected(p, rs[n]).Keys);
      assert LastRequirement(m.requirements, rs[n].id).Some? <==> Found(rs, m, n);
    }
  }

  ghost function AllWith(n: nat, keys: set<string>): set<(nat, string)> {
    set k | k in keys :: (n, k)
  }

  lemma {:induction false} PairsCounted(n: nat, keys: set<string>)
    ensures |AllWith(n, keys)| == |keys|
    decreases keys
  {
    if keys == {} {
      assert AllWith(n, keys) == {};
    } else {
      var k :| k in keys;
      PairsCounted(n, keys - {k});
      assert AllWith(n, keys) == AllWith(n, keys - {k}) + {(n, k)};
    }
  }

  lemma AttributesSnoc(p: Profile, rs: seq<Requirement>, m: RequirementGraph)
    requires rs != []
    ensures var n, rest := |rs| - 1, rs[..|rs| - 1];
            var own := if Found(rs, m, n) then AllWith(n, Expected(p, rs[n]).Keys) else {};
            ComparedAttributes(p, rs, m) == ComparedAttributes(p, rest, m) + own
              && ComparedAttributes(p, rest, m) !! own
  {
    var n, rest := |rs| - 1, rs[..|rs| - 1];
    ExpectedTravels(p, rs[n]);
    hide Exportable, Expected;
    assert forall i: nat, k :: i < n ==> (ComparedAt(p, rs, m, i, k) <==> ComparedAt(p, rest, m, i, k));
    forall x ensures x in ComparedAttributes(p, rs, m) <==>
      x in ComparedAttributes(p, rest, m) || (Found(rs, m, n) && x in AllWith(n, Expected(p, rs[n]).Keys))
    {
      hide Found, Travels;
    }
  }
}
