/** What the comparison of `crates/kr0ki-core/src/reqif_roundtrip.rs` means, and the whole round trip
    through the exported content and a reader of it. */
module ReqifRoundTrip {
  import opened Ordering
  import opened ReqifCompare
  import opened ReqifDecode
  import opened ReqifExport
  import opened Requirements
  import opened Wrappers

  // ---------------------------------------------------------------- no differences means agreement

  /** Every exportable attribute came back unchanged, and whatever else came back is one of the two
      additions of the importer. */
  predicate AttributesAgree(p: Profile, before: Requirement, now: Requirement) {
    && (forall k :: k in before.attributes && Exportable(p, k) ==>
          k in now.attributes && now.attributes[k] == before.attributes[k])
    && (forall k :: k in now.attributes ==>
          (k in before.attributes && Exportable(p, k)) || IsAddition(before, k, now.attributes[k]))
  }

  predicate RequirementsAgree(p: Profile, before: Requirement, now: Requirement) {
    before.title == now.title && before.text == now.text && AttributesAgree(p, before, now)
  }

  predicate RelationsAgree(r: Relation, now: Relation) {
    r.kind == now.kind && r.source == now.source && r.target == now.target
  }

  /** The reimported graph carries exactly what the export is to carry. */
  ghost predicate Agrees(p: Profile, o: RequirementGraph, m: RequirementGraph) {
    var ids := RequirementIds(o.requirements);
    && RequirementIds(m.requirements) == ids
    && (forall b, n :: b in o.requirements && n in m.requirements && b.id == n.id ==> RequirementsAgree(p, b, n))
    && RelationIds(m.relations) == CarriedIds(ids, o.relations)
    && (forall r, q :: r in o.relations && q in m.relations && Carried(ids, r) && r.id == q.id ==> RelationsAgree(r, q))
  }

  lemma {:induction false} LastIsUnique(rs: seq<Requirement>, n: Requirement)
    requires UniqueRequirements(rs) && n in rs
    ensures LastRequirement(rs, n.id) == Some(n)
  {
    var rest, last := rs[..|rs| - 1], rs[|rs| - 1];
    if last != n {
      var i :| 0 <= i < |rs| && rs[i] == n;
      assert rest[i] == n;
      LastIsUnique(rest, n);
    }
  }

  lemma {:induction false} LastIsMember(rs: seq<Requirement>, id: string)
    ensures var n := LastRequirement(rs, id);
            if n.Some? then n.value in rs && n.value.id == id else id !in RequirementIds(rs)
  {
    if rs != [] {
      var rest, last := rs[..|rs| - 1], rs[|rs| - 1];
      assert rs == rest + [last];
      LastIsMember(rest, id);
    }
  }

  lemma {:induction false} LastRelationIsUnique(rs: seq<Relation>, q: Relation)
    requires UniqueRelations(rs) && q in rs
    ensures LastRelation(rs, q.id) == Some(q)
  {
    var rest, last := rs[..|rs| - 1], rs[|rs| - 1];
    if last != q {
      var i :| 0 <= i < |rs| && rs[i] == q;
      assert rest[i] == q;
      LastRelationIsUnique(rest, q);
    }
  }

  lemma {:induction false} LastRelationIsMember(rs: seq<Relation>, id: string)
    ensures var q := LastRelation(rs, id);
            if q.Some? then q.value in rs && q.value.id == id else id !in RelationIds(rs)
  {
    if rs != [] {
      var rest, last := rs[..|rs| - 1], rs[|rs| - 1];
      assert rs == rest + [last];
      LastRelationIsMember(rest, id);
    }
  }

  lemma TextNotExportable(p: Profile)
    ensures !Exportable(p, TextKey()) && TextKey() != Subtypes()
  {
    TextIsNotSubtypes();
  }

  /** An exported key is never mistaken for an addition. */
  lemma ExpectedNotAddition(p: Profile, before: Requirement, key: string, value: string)
    requires key in Expected(p, before)
    ensures !IsAddition(before, key, value)
  {
    TextNotExportable(p);
    hide Exportable, TextKey, Subtypes, RequirementWord;
  }

  lemma NoDiffMeansAgree(p: Profile, before: Requirement, now: Requirement)
    ensures RequirementDiffs(p, before, Some(now)) == {} <==> RequirementsAgree(p, before, now)
  {
    var expected, actual := Expected(p, before), Actual(before, now);
    forall k | k in expected ensures k in actual <==> k in now.attributes {
      if k in now.attributes { ExpectedNotAddition(p, before, k, now.attributes[k]); }
    }
    hide Exportable, IsAddition;
    AttributeDiffsEmpty(before.id, expected, actual);
    assert expected == actual <==> AttributesAgree(p, before, now) by { SameAttributes(p, before, now); }
    hide Expected, Actual, AttributeDiffs, AttributesAgree;
  }

  lemma AttributeDiffsEmpty(id: string, expected: map<string, string>, actual: map<string, string>)
    ensures AttributeDiffs(id, expected, actual) == {} <==> expected == actual
  {
    var diffs := AttributeDiffs(id, expected, actual);
    if diffs == {} {
      forall k | k in expected ensures k in actual && actual[k] == expected[k] {
        assert AttributeLost(id, k) !in diffs;
        assert k in actual ==> AttributeChanged(id, k, expected[k], actual[k]) !in diffs;
      }
      forall k | k in actual ensures k in expected {
        assert AttributeAdded(id, k) !in diffs;
      }
    }
  }

  lemma SameAttributes(p: Profile, before: Requirement, now: Requirement)
    ensures Expected(p, before) == Actual(before, now) <==> AttributesAgree(p, before, now)
  {
    var expected, actual := Expected(p, before), Actual(before, now);
    forall k | k in expected && k in now.attributes ensures k in actual {
      ExpectedNotAddition(p, before, k, now.attributes[k]);
    }
    hide Exportable, IsAddition;
    if expected == actual {
      forall k | k in now.attributes
        ensures (k in before.attributes && Exportable(p, k)) || IsAddition(before, k, now.attributes[k])
      {
        if k in actual { assert k in expected; }
      }
      forall k | k in before.attributes && Exportable(p, k)
        ensures k in now.attributes && now.attributes[k] == before.attributes[k] {
        assert k in expected && k in actual;
      }
    }
  }

  lemma NoRelationDiffMeansAgree(r: Relation, now: Relation)
    ensures RelationDiffs(r, Some(now)) == {} <==> RelationsAgree(r, now)
  {
    if KindName(r.kind) == KindName(now.kind) { KindNameInjective(r.kind, now.kind); }
    hide KindName;
    assert FieldDiff(r.id, KindField, KindName(r.kind), KindName(now.kind)) == {}
      <==> KindName(r.kind) == KindName(now.kind);
  }

  /** With unique ids, the comparison reports no difference exactly when the graphs agree. */
  lemma LosslessExactly(p: Profile, o: RequirementGraph, m: RequirementGraph)
    requires UniqueRequirements(o.requirements) && UniqueRequirements(m.requirements)
    requires UniqueRelations(o.relations) && UniqueRelations(m.relations)
    ensures Differences(p, o, m) == {} <==> Agrees(p, o, m)
  {
    var ids := RequirementIds(o.requirements);
    RequirementsLossless(p, o, m);
    RelationsLossless(ids, o, m);
    hide RequirementsPart, RelationsPart, RequirementsAgree, RelationsAgree, Carried, UniqueRequirements,
      UniqueRelations;
    NoneExtra(RequirementIds(m.requirements) - ids);
    NoneAdded(RelationIds(m.relations) - CarriedIds(ids, o.relations));
    hide ExtraDiffs, AddedDiffs, RequirementIds, RelationIds, CarriedIds;
    assert Differences(p, o, m) == {} <==>
      && RequirementsPart(p, o.requirements, m) == {} && ExtraDiffs(RequirementIds(m.requirements) - ids) == {}
      && RelationsPart(ids, o.relations, m) == {}
      && AddedDiffs(RelationIds(m.relations) - CarriedIds(ids, o.relations)) == {};
    SameSet(RequirementIds(m.requirements), ids);
    SameSet(RelationIds(m.relations), CarriedIds(ids, o.relations));
  }

  lemma SameSet(a: set<string>, b: set<string>)
    ensures a == b <==> a - b == {} && b <= a
  {
    if a - b == {} {
      forall x | x in a ensures x in b { assert x !in a - b; }
    }
  }

  lemma NoneExtra(ids: set<string>)
    ensures ExtraDiffs(ids) == {} <==> ids == {}
  {
    if ids != {} {
      var id :| id in ids;
      assert ExtraRequirement(id) in ExtraDiffs(ids);
    }
  }

  lemma NoneAdded(ids: set<string>)
    ensures AddedDiffs(ids) == {} <==> ids == {}
  {
    if ids != {} {
      var id :| id in ids;
      assert RelationAdded(id) in AddedDiffs(ids);
    }
  }

  lemma RequirementsLossless(p: Profile, o: RequirementGraph, m: RequirementGraph)
    requires UniqueRequirements(m.requirements)
    ensures RequirementsPart(p, o.requirements, m) == {}
            <==> RequirementIds(o.requirements) <= RequirementIds(m.requirements)
                 && forall b, n :: b in o.requirements && n in m.requirements && b.id == n.id ==>
                      RequirementsAgree(p, b, n)
  {
    var part := RequirementsPart(p, o.requirements, m);
    hide RequirementDiffs, RequirementsAgree, LastRequirement, UniqueRequirements;
    forall b | b in o.requirements
      ensures RequirementDiffs(p, b, LastRequirement(m.requirements, b.id)) <= part
      ensures RequirementDiffs(p, b, LastRequirement(m.requirements, b.id)) == {}
              <==> b.id in RequirementIds(m.requirements)
                   && forall n :: n in m.requirements && n.id == b.id ==> RequirementsAgree(p, b, n)
    {
      RequirementLossless(p, b, m);
    }
    if part == {} {
      forall b | b in o.requirements ensures RequirementDiffs(p, b, LastRequirement(m.requirements, b.id)) == {} {}
    }
  }

  lemma RequirementLossless(p: Profile, b: Requirement, m: RequirementGraph)
    requires UniqueRequirements(m.requirements)
    ensures RequirementDiffs(p, b, LastRequirement(m.requirements, b.id)) == {}
            <==> b.id in RequirementIds(m.requirements)
                 && forall n :: n in m.requirements && n.id == b.id ==> RequirementsAgree(p, b, n)
  {
    NothingFor(p, b);
    LastIsMember(m.requirements, b.id);
    var after := LastRequirement(m.requirements, b.id);
    if after.Some? {
      NoDiffMeansAgree(p, b, after.value);
      forall n | n in m.requirements && n.id == b.id ensures n == after.value { LastIsUnique(m.requirements, n); }
    }
    hide RequirementDiffs, RequirementsAgree, LastRequirement, UniqueRequirements;
  }

  lemma RelationsLossless(ids: set<string>, o: RequirementGraph, m: RequirementGraph)
    requires UniqueRelations(m.relations)
    ensures RelationsPart(ids, o.relations, m) == {}
            <==> CarriedIds(ids, o.relations) <= RelationIds(m.relations)
                 && forall r, q :: r in o.relations && q in m.relations && Carried(ids, r) && r.id == q.id ==>
                      RelationsAgree(r, q)
  {
    var part := RelationsPart(ids, o.relations, m);
    hide RelationDiffs, RelationsAgree, LastRelation, UniqueRelations, Carried;
    forall r | r in o.relations && Carried(ids, r)
      ensures RelationDiffs(r, LastRelation(m.relations, r.id)) <= part
      ensures RelationDiffs(r, LastRelation(m.relations, r.id)) == {}
              <==> r.id in RelationIds(m.relations)
                   && forall q :: q in m.relations && q.id == r.id ==> RelationsAgree(r, q)
    {
      RelationLossless(r, m);
    }
    if part == {} {
      forall r | r in o.relations && Carried(ids, r) ensures RelationDiffs(r, LastRelation(m.relations, r.id)) == {} {}
    }
  }

  lemma RelationLossless(r: Relation, m: RequirementGraph)
    requires UniqueRelations(m.relations)
    ensures RelationDiffs(r, LastRelation(m.relations, r.id)) == {}
            <==> r.id in RelationIds(m.relations)
                 && forall q :: q in m.relations && q.id == r.id ==> RelationsAgree(r, q)
  {
    LastRelationIsMember(m.relations, r.id);
    var after := LastRelation(m.relations, r.id);
    if after.Some? {
      NoRelationDiffMeansAgree(r, after.value);
      forall q | q in m.relations && q.id == r.id ensures q == after.value { LastRelationIsUnique(m.relations, q); }
    }
    hide RelationsAgree, LastRelation, UniqueRelations;
  }

  /** Each original relation is compared, listed as not asserted, or listed as leaving the
      requirements: exactly one of the three. */
  lemma RelationsClassified(p: Profile, o: RequirementGraph, m: RequirementGraph, r: Relation)
    requires UniqueRelations(o.relations) && r in o.relations
    ensures (if r.id in CarriedIds(RequirementIds(o.requirements), o.relations) then 1 else 0)
            + (if (NonAssertedRelations, r.id) in Unsupported(p, o, m) then 1 else 0)
            + (if (RelationsToNonRequirements, r.id) in Unsupported(p, o, m) then 1 else 0) == 1
  {
    var ids := RequirementIds(o.requirements);
    NoteComesFromRelation(p, o, m, NonAssertedRelations, r);
    NoteComesFromRelation(p, o, m, RelationsToNonRequirements, r);
    forall q | q in o.relations && q.id == r.id ensures q == r { SameRelation(o.relations, q, r); }
    hide Unsupported, UniqueRelations, RequirementIds;
  }

  lemma SameRelation(rs: seq<Relation>, q: Relation, r: Relation)
    requires UniqueRelations(rs) && q in rs && r in rs && q.id == r.id
    ensures q == r
  {
    var i :| 0 <= i < |rs| && rs[i] == q;
    var j :| 0 <= j < |rs| && rs[j] == r;
  }

  lemma NoteComesFromRelation(p: Profile, o: RequirementGraph, m: RequirementGraph, kind: UnsupportedKind, r: Relation)
    requires UniqueRelations(o.relations) && r in o.relations
    requires kind == NonAssertedRelations || kind == RelationsToNonRequirements
    ensures (kind, r.id) in Unsupported(p, o, m) <==> (kind, r.id) in RelationNotes(RequirementIds(o.requirements), r)
  {
    var ids := RequirementIds(o.requirements);
    RequirementNoteKinds(p, o, m, kind, r.id);
    assert (kind, r.id) in Unsupported(p, o, m)
      <==> (kind, r.id) in RelationNotesOf(ids, o.relations) by { hide NotesOf, RelationNotesOf; }
    if (kind, r.id) in RelationNotesOf(ids, o.relations) {
      var q :| q in o.relations && (kind, r.id) in RelationNotes(ids, q);
      SameRelation(o.relations, q, r);
    }
  }

  lemma RequirementNoteKinds(p: Profile, o: RequirementGraph, m: RequirementGraph, kind: UnsupportedKind, id: string)
    requires kind == NonAssertedRelations || kind == RelationsToNonRequirements
    ensures (kind, id) !in NotesOf(p, o.requirements, m)
  {
    forall b | b in o.requirements
      ensures (kind, id) !in RequirementNotes(p, b, LastRequirement(m.requirements, b.id)) {
      hide Exportable, LastRequirement;
    }
    hide RequirementNotes, LastRequirement;
  }

  // ---------------------------------------------------------------- a reader

  /** `normalize_key` of the importer. */
  function Normalized(p: Profile, name: string): string {
    Underscored(p.lower(name))
  }

  /** Every value read under the normalized name of its definition, later ones replacing earlier. */
  function ReadAttributes(p: Profile, layer: TypeLayer, values: seq<AttributeValue>): map<string, string> {
    if values == [] then map[]
    else
      var rest := ReadAttributes(p, layer, values[..|values| - 1]);
      match Decode(layer, values[|values| - 1])
      case Some(pair) => rest[Normalized(p, pair.0) := pair.1]
      case None => rest
  }

  /** A requirement as the importer lowers it: the statement is the `text` attribute, and `subtypes`
      is derived from the object type when absent. */
  function ReadRequirement(p: Profile, layer: TypeLayer, o: SpecObject, baseline: BaselineIdentity,
                           provenance: Provenance): Requirement {
    var read := ReadAttributes(p, layer, o.values);
    Requirement(o.id, o.longName, if TextKey() in read then read[TextKey()] else "", baseline, provenance,
                if Subtypes() in read then read else read[Subtypes() := RequirementWord()], [])
  }

  function KindOf(types: seq<RelationType>, id: string): Option<RelationKind> {
    if types == [] then None
    else if types[0].id == id then KindNamed(types[0].longName)
    else KindOf(types[1..], id)
  }

  function KindNamed(name: string): Option<RelationKind> {
    if name == RelationLongName(Contains) then Some(Contains)
    else if name == RelationLongName(Derives) then Some(Derives)
    else if name == RelationLongName(Refines) then Some(Refines)
    else if name == RelationLongName(Requires) then Some(Requires)
    else if name == RelationLongName(Satisfies) then Some(Satisfies)
    else if name == RelationLongName(Verifies) then Some(Verifies)
    else if name == RelationLongName(Implements) then Some(Implements)
    else if name == RelationLongName(Traces) then Some(Traces)
    else if name == RelationLongName(AllocatedTo) then Some(AllocatedTo)
    else if name == RelationLongName(Precedes) then Some(Precedes)
    else None
  }

  /** Lowering fails on a relation of unknown type or with an unknown endpoint. */
  function ReadRelations(types: seq<RelationType>, ids: set<string>, rs: seq<SpecRelation>,
                         provenance: Provenance): Option<seq<Relation>> {
    if rs == [] then Some([])
    else
      var rest, last := ReadRelations(types, ids, rs[..|rs| - 1], provenance), rs[|rs| - 1];
      var kind := KindOf(types, last.relationType);
      if rest.None? || kind.None? || last.source !in ids || last.target !in ids then None
      else Some(rest.value + [Relation(last.id, last.source, last.target, kind.value, Asserted, provenance, None)])
  }

  function ReadBundle(p: Profile, b: Bundle, baseline: BaselineIdentity,
                      provenance: Provenance): Option<RequirementGraph> {
    var requirements := seq(|b.objects|, i requires 0 <= i < |b.objects| =>
                              ReadRequirement(p, b.layer, b.objects[i], baseline, provenance));
    match ReadRelations(b.relationTypes, RequirementIds(requirements), b.relations, provenance)
    case None => None
    case Some(relations) => Some(RequirementGraph(baseline, requirements, [], relations))
  }

  /** Lower case leaves the two names the importer depends on as expected. */
  predicate LowerOk(p: Profile) {
    Normalized(p, TextName()) == TextKey() && Normalized(p, Subtypes()) == Subtypes()
  }

  // ---------------------------------------------------------------- the whole round trip

  lemma ExportableNormal(p: Profile, key: string)
    requires Exportable(p, key)
    ensures Normalized(p, key) == key
  {
  }

  /** Some attributes of a requirement, and its statement as `text`. */
  function ReadPart(r: Requirement, keys: seq<string>): map<string, string>
    requires forall k :: k in keys ==> k in r.attributes
  {
    (map k | k in keys :: r.attributes[k])[TextKey() := r.text]
  }

  lemma ReadPartSnoc(p: Profile, r: Requirement, keys: seq<string>, key: string)
    requires (forall k :: k in keys ==> k in r.attributes) && key in r.attributes && Exportable(p, key)
    ensures ReadPart(r, keys + [key]) == ReadPart(r, keys)[key := r.attributes[key]]
  {
    TextNotExportable(p);
    hide Exportable, TextKey;
  }

  /** Values that decode to the statement and then to some attributes. */
  ghost predicate Encodes(p: Profile, layer: TypeLayer, values: seq<AttributeValue>, r: Requirement, own: seq<string>) {
    && |values| == 1 + |own| && Decode(layer, values[0]) == Some((TextName(), r.text))
    && (forall k :: k in own ==> k in r.attributes && Exportable(p, k))
    && forall i :: 0 <= i < |own| ==>
         own[i] in r.attributes && Decode(layer, values[i + 1]) == Some((own[i], r.attributes[own[i]]))
  }

  /** Reading such values back, one more at a time. */
  lemma {:induction false} ReadsBack(p: Profile, layer: TypeLayer, values: seq<AttributeValue>, r: Requirement,
                                     own: seq<string>, n: nat)
    requires LowerOk(p) && Encodes(p, layer, values, r, own) && n <= |own|
    ensures forall k :: k in own[..n] ==> k in r.attributes
    ensures ReadAttributes(p, layer, values[..n + 1]) == ReadPart(r, own[..n])
    decreases n
  {
    hide Exportable, Decode, TextKey, TextName, Subtypes, ReadAttributes, ReadPart, Normalized;
    ReadNext(p, layer, values, n);
    if n == 0 {
      ReadNone(p, layer, values, r);
      assert own[..0] == [];
    } else {
      ReadsBack(p, layer, values, r, own, n - 1);
      var key := own[n - 1];
      assert own[..n] == own[..n - 1] + [key] && key in own;
      ExportableNormal(p, key);
      ReadPartSnoc(p, r, own[..n - 1], key);
    }
  }

  lemma ReadNone(p: Profile, layer: TypeLayer, values: seq<AttributeValue>, r: Requirement)
    ensures ReadAttributes(p, layer, values[..0])[TextKey() := r.text] == ReadPart(r, [])
  {
    hide TextKey;
  }

  lemma OwnKeysExportable(p: Profile, r: Requirement)
    ensures forall k :: k in OwnKeys(p, r) <==> k in r.attributes && Exportable(p, k)
  {
    hide Exportable;
  }

  lemma ReadNext(p: Profile, layer: TypeLayer, values: seq<AttributeValue>, n: nat)
    requires n < |values|
    ensures ReadAttributes(p, layer, values[..n + 1])
            == match Decode(layer, values[n])
               case Some(pair) => ReadAttributes(p, layer, values[..n])[Normalized(p, pair.0) := pair.1]
               case None => ReadAttributes(p, layer, values[..n])
  {
    assert values[..n + 1][..n] == values[..n];
    hide Decode, Normalized;
  }

  /** A requirement reads back with its id, title and text, its exportable attributes, and the two
      additions. */
  lemma {:induction false} RequirementReadsBack(p: Profile, rs: seq<Requirement>, r: Requirement,
                                                baseline: BaselineIdentity, provenance: Provenance)
    requires LowerOk(p) && r in rs
    ensures var now := ReadRequirement(p, LayerOf(p, rs), SpecObjectOf(LayerOf(p, rs), r), baseline, provenance);
            now.id == r.id && RequirementsAgree(p, r, now)
  {
    var layer := LayerOf(p, rs);
    var o, own := SpecObjectOf(layer, r), OwnKeys(p, r);
    hide *;
    EncodesOwn(p, rs, r);
    SpecObjectNames(layer, r);
    ReadsAll(p, layer, o.values, r, own);
    OwnKeysExportable(p, r);
    ReadRequirementParts(p, layer, o, baseline, provenance);
    ReadWhole(p, r, own, ReadRequirement(p, layer, o, baseline, provenance), ReadAttributes(p, layer, o.values));
  }

  lemma SpecObjectNames(layer: TypeLayer, r: Requirement)
    ensures SpecObjectOf(layer, r).id == r.id && SpecObjectOf(layer, r).longName == r.title
  {
    hide ValuesOf;
  }

  lemma EncodesOwn(p: Profile, rs: seq<Requirement>, r: Requirement)
    requires r in rs
    ensures Encodes(p, LayerOf(p, rs), SpecObjectOf(LayerOf(p, rs), r).values, r, OwnKeys(p, r))
  {
    EveryAttributeOnce(p, rs, r);
    OwnKeysExportable(p, r);
    hide Exportable, LayerOf, SpecObjectOf, Decode, OwnKeys, TextKey, TextName;
  }

  lemma ReadsAll(p: Profile, layer: TypeLayer, values: seq<AttributeValue>, r: Requirement, own: seq<string>)
    requires LowerOk(p) && Encodes(p, layer, values, r, own)
    ensures (forall k :: k in own ==> k in r.attributes) && ReadAttributes(p, layer, values) == ReadPart(r, own)
  {
    ReadsBack(p, layer, values, r, own, |own|);
    assert values[..|own| + 1] == values && own[..|own|] == own;
    hide Exportable, Decode, ReadAttributes, ReadPart, LowerOk, TextName;
  }

  lemma ReadRequirementParts(p: Profile, layer: TypeLayer, o: SpecObject, baseline: BaselineIdentity,
                             provenance: Provenance)
    ensures var now, read := ReadRequirement(p, layer, o, baseline, provenance), ReadAttributes(p, layer, o.values);
            && now.id == o.id && now.title == o.longName
            && now.text == (if TextKey() in read then read[TextKey()] else "")
            && now.attributes == if Subtypes() in read then read else read[Subtypes() := RequirementWord()]
  {
    hide ReadAttributes, TextKey, Subtypes, RequirementWord;
  }

  lemma {:induction false} ReadWhole(p: Profile, r: Requirement, own: seq<string>, now: Requirement,
                                     read: map<string, string>)
    requires LowerOk(p) && forall k :: k in own <==> k in r.attributes && Exportable(p, k)
    requires read == ReadPart(r, own) && now.title == r.title
             && now.text == if TextKey() in read then read[TextKey()] else ""
    requires now.attributes == if Subtypes() in read then read else read[Subtypes() := RequirementWord()]
    ensures RequirementsAgree(p, r, now)
  {
    hide Exportable, TextKey, Subtypes, RequirementWord, Normalized, AttributesAgree;
    assert read == Expected(p, r)[TextKey() := r.text];
    ReadAgrees(p, r, now, read);
  }

  lemma ReadAgrees(p: Profile, r: Requirement, now: Requirement, read: map<string, string>)
    requires LowerOk(p) && read == Expected(p, r)[TextKey() := r.text]
    requires now.attributes == if Subtypes() in read then read else read[Subtypes() := RequirementWord()]
    ensures AttributesAgree(p, r, now)
  {
    TextNotExportable(p);
    SubtypesExportable(p);
    hide Exportable, TextKey, Subtypes, RequirementWord;
  }

  lemma SubtypesExportable(p: Profile)
    requires LowerOk(p)
    ensures Exportable(p, Subtypes())
  {
    TextIsNotSubtypes();
  }

  // ---------------------------------------------------------------- relations

  lemma KindReadsBack(k: RelationKind)
    ensures KindOf(RelationTypes(), RelationTypeId(k)) == Some(k)
  {
    var i := KindIndex(k);
    KindNameReads(k);
    KindAt(k, 0, i);
    assert RelationTypes()[0..] == RelationTypes();
  }

  function KindIndex(k: RelationKind): (i: nat)
    ensures i < 10 && AllKinds()[i] == k
  {
    match k
    case Contains => 0
    case Derives => 1
    case Refines => 2
    case Requires => 3
    case Satisfies => 4
    case Verifies => 5
    case Implements => 6
    case Traces => 7
    case AllocatedTo => 8
    case Precedes => 9
  }

  lemma KindNameReads(k: RelationKind)
    ensures KindNamed(RelationLongName(k)) == Some(k)
  {
  }

  lemma RelationTypeIdInjective(a: RelationKind, b: RelationKind)
    requires RelationTypeId(a) == RelationTypeId(b)
    ensures a == b
  {
  }

  lemma {:induction false} KindAt(k: RelationKind, from: nat, i: nat)
    requires from <= i < 10 && AllKinds()[i] == k && KindNamed(RelationLongName(k)) == Some(k)
    ensures KindOf(RelationTypes()[from..], RelationTypeId(k)) == Some(k)
    decreases i - from
  {
    var rest := RelationTypes()[from..];
    var other := AllKinds()[from];
    assert rest[0] == RelationType(RelationTypeId(other), RelationLongName(other));
    if RelationTypeId(other) == RelationTypeId(k) {
      RelationTypeIdInjective(other, k);
    } else {
      assert from != i;
      assert rest[1..] == RelationTypes()[from + 1..];
      hide RelationTypeId, RelationLongName, KindNamed, AllKinds;
      KindAt(k, from + 1, i);
    }
  }

  /** The carried relations, as they come back. */
  function Returned(ids: set<string>, rs: seq<Relation>, provenance: Provenance): seq<Relation> {
    if rs == [] then []
    else
      var last := rs[|rs| - 1];
      Returned(ids, rs[..|rs| - 1], provenance)
        + if Carried(ids, last)
          then [Relation(last.id, last.source, last.target, last.kind, Asserted, provenance, None)] else []
  }

  lemma {:induction false} RelationsReadBack(ids: set<string>, rs: seq<Relation>, provenance: Provenance)
    ensures ReadRelations(RelationTypes(), ids, RelationsOf(ids, rs), provenance) == Some(Returned(ids, rs, provenance))
    decreases |rs|
  {
    hide KindOf, RelationTypes, RelationTypeId;
    if rs != [] {
      var rest, last := rs[..|rs| - 1], rs[|rs| - 1];
      RelationsReadBack(ids, rest, provenance);
      KindReadsBack(last.kind);
      if Carried(ids, last) {
        var before := RelationsOf(ids, rest);
        assert RelationsOf(ids, rs) == before + [RelationOf(last)];
        assert RelationsOf(ids, rs)[..|before|] == before;
      } else {
        assert RelationsOf(ids, rs) == RelationsOf(ids, rest);
        assert Returned(ids, rs, provenance) == Returned(ids, rest, provenance);
      }
    }
  }

  predicate ReturnedFrom(ids: set<string>, rs: seq<Relation>, q: Relation) {
    exists r :: r in rs && Carried(ids, r) && r.id == q.id && RelationsAgree(r, q)
  }

  lemma {:induction false} ReturnedIds(ids: set<string>, rs: seq<Relation>, provenance: Provenance)
    ensures RelationIds(Returned(ids, rs, provenance)) == CarriedIds(ids, rs)
    decreases |rs|
  {
    hide Carried;
    if rs != [] {
      var rest, last := rs[..|rs| - 1], rs[|rs| - 1];
      assert rs == rest + [last];
      ReturnedIds(ids, rest, provenance);
      assert CarriedIds(ids, rs) == CarriedIds(ids, rest) + if Carried(ids, last) then {last.id} else {};
      var back, q := Returned(ids, rest, provenance),
        Relation(last.id, last.source, last.target, last.kind, Asserted, provenance, None);
      assert RelationIds(back + [q]) == RelationIds(back) + {last.id};
      if !Carried(ids, last) { assert Returned(ids, rs, provenance) == back; }
    }
  }

  lemma {:induction false} ReturnedUnique(ids: set<string>, rs: seq<Relation>, provenance: Provenance)
    requires UniqueRelations(rs)
    ensures UniqueRelations(Returned(ids, rs, provenance))
    decreases |rs|
  {
    hide Carried;
    if rs != [] {
      var rest, last := rs[..|rs| - 1], rs[|rs| - 1];
      ReturnedUnique(ids, rest, provenance);
      ReturnedIds(ids, rest, provenance);
      var back := Returned(ids, rest, provenance);
      forall i | 0 <= i < |back| ensures back[i].id != last.id {
        assert back[i] in back && back[i].id in RelationIds(back);
        assert back[i].id in CarriedIds(ids, rest);
      }
    }
  }

  lemma {:induction false} ReturnedMembers(ids: set<string>, rs: seq<Relation>, provenance: Provenance)
    ensures forall q :: q in Returned(ids, rs, provenance) ==> ReturnedFrom(ids, rs, q)
    decreases |rs|
  {
    hide Carried;
    if rs != [] {
      var rest, last := rs[..|rs| - 1], rs[|rs| - 1];
      assert rs == rest + [last] && last in rs;
      ReturnedMembers(ids, rest, provenance);
      forall q | q in Returned(ids, rs, provenance) ensures ReturnedFrom(ids, rs, q) {
        if q in Returned(ids, rest, provenance) {
          var r :| r in rest && Carried(ids, r) && r.id == q.id && RelationsAgree(r, q);
          assert r in rs;
        }
      }
    }
  }

  /** Exporting a graph and reading it back loses nothing the export carries: the comparison finds
      no difference, and every requirement, exportable attribute and carried relation is compared. */
  lemma RoundTripIsLossless(p: Profile, o: RequirementGraph, baseline: BaselineIdentity, provenance: Provenance)
    requires LowerOk(p) && UniqueRequirements(o.requirements) && UniqueRelations(o.relations)
    ensures var back := ReadBundle(p, BundleOf(p, o), baseline, provenance);
            back.Some? && Differences(p, o, back.value) == {}
              && CountFound(o.requirements, back.value) == |o.requirements|
  {
    var layer, rs := LayerOf(p, o.requirements), o.requirements;
    var requirements :=
      seq(|rs|,
          i requires 0 <= i < |rs| => ReadRequirement(p, layer, SpecObjectOf(layer, rs[i]), baseline, provenance));
    forall i | 0 <= i < |rs| ensures requirements[i].id == rs[i].id && RequirementsAgree(p, rs[i], requirements[i]) {
      RequirementReadsBack(p, rs, rs[i], baseline, provenance);
    }
    hide LayerOf, SpecObjectOf, ReadRequirement, RequirementsAgree;
    SameIds(rs, requirements);
    var ids := RequirementIds(rs);
    RelationsReadBack(ids, o.relations, provenance);
    ReturnedIds(ids, o.relations, provenance);
    ReturnedUnique(ids, o.relations, provenance);
    ReturnedMembers(ids, o.relations, provenance);
    BundleRequirements(p, o, baseline, provenance, requirements);
    var m := RequirementGraph(baseline, requirements, [], Returned(ids, o.relations, provenance));
    hide ReadBundle, Returned, BundleOf;
    RoundTripAgrees(p, o, m);
    LosslessExactly(p, o, m);
    AllFound(rs, m);
  }

  lemma SameIds(rs: seq<Requirement>, qs: seq<Requirement>)
    requires |rs| == |qs| && forall i :: 0 <= i < |rs| ==> qs[i].id == rs[i].id
    ensures RequirementIds(rs) == RequirementIds(qs)
    ensures UniqueRequirements(rs) ==> UniqueRequirements(qs)
  {
    forall id ensures id in RequirementIds(rs) <==> id in RequirementIds(qs) {
      if id in RequirementIds(rs) { var i :| 0 <= i < |rs| && rs[i].id == id; assert qs[i] in qs; }
      if id in RequirementIds(qs) { var i :| 0 <= i < |qs| && qs[i].id == id; assert rs[i] in rs; }
    }
  }

  lemma BundleRequirements(p: Profile, o: RequirementGraph, baseline: BaselineIdentity, provenance: Provenance,
                           requirements: seq<Requirement>)
    requires var layer, rs := LayerOf(p, o.requirements), o.requirements;
             && |requirements| == |rs|
             && forall i :: 0 <= i < |rs| ==>
                  requirements[i] == ReadRequirement(p, layer, SpecObjectOf(layer, rs[i]), baseline, provenance)
    requires RequirementIds(requirements) == RequirementIds(o.requirements)
    ensures var ids := RequirementIds(o.requirements);
            ReadBundle(p, BundleOf(p, o), baseline, provenance)
            == match ReadRelations(RelationTypes(), ids, RelationsOf(ids, o.relations), provenance)
               case None => None
               case Some(relations) => Some(RequirementGraph(baseline, requirements, [], relations))
  {
    var b := BundleOf(p, o);
    hide LayerOf, SpecObjectOf, ReadRequirement, RelationsOf, ReadRelations, RelationTypes, RequirementIds;
    assert requirements
      == seq(|b.objects|,
             i requires 0 <= i < |b.objects| => ReadRequirement(p, b.layer, b.objects[i], baseline, provenance));
  }

  lemma RoundTripAgrees(p: Profile, o: RequirementGraph, m: RequirementGraph)
    requires UniqueRequirements(o.requirements) && |m.requirements| == |o.requirements|
    requires forall i :: 0 <= i < |o.requirements| ==>
               m.requirements[i].id == o.requirements[i].id
                 && RequirementsAgree(p, o.requirements[i], m.requirements[i])
    requires var ids := RequirementIds(o.requirements);
             && UniqueRelations(o.relations) && RelationIds(m.relations) == CarriedIds(ids, o.relations)
             && forall q :: q in m.relations ==> ReturnedFrom(ids, o.relations, q)
    ensures Agrees(p, o, m)
  {
    var ids := RequirementIds(o.requirements);
    SameIds(o.requirements, m.requirements);
    forall b, n | b in o.requirements && n in m.requirements && b.id == n.id ensures RequirementsAgree(p, b, n) {
      var i :| 0 <= i < |o.requirements| && o.requirements[i] == b;
      var j :| 0 <= j < |m.requirements| && m.requirements[j] == n;
      assert i == j;
    }
    forall r, q | r in o.relations && q in m.relations && Carried(ids, r) && r.id == q.id ensures RelationsAgree(r, q) {
      var r' :| r' in o.relations && Carried(ids, r') && r'.id == q.id && RelationsAgree(r', q);
      SameRelation(o.relations, r, r');
    }
  }

  lemma {:induction false} AllFound(rs: seq<Requirement>, m: RequirementGraph)
    requires RequirementIds(rs) <= RequirementIds(m.requirements)
    ensures CountFound(rs, m) == |rs|
    decreases |rs|
  {
    if rs != [] {
      var rest, last := rs[..|rs| - 1], rs[|rs| - 1];
      assert rs == rest + [last];
      LastIsMember(m.requirements, last.id);
      assert RequirementIds(rest) <= RequirementIds(rs);
      AllFound(rest, m);
    }
  }
}
