/** The semantic comparison of `crates/kr0ki-core/src/reqif_roundtrip.rs`: an original requirement
    graph against its reimported form. */
module ReqifCompare {
  import opened Ordering
  import opened ReqifExport
  import opened Requirements
  import opened Wrappers

  datatype Field = KindField | SourceField | TargetField

  datatype Difference =
    | MissingRequirement(id: string)
    | ExtraRequirement(id: string)
    | TitleChanged(id: string, before: string, after: string)
    | TextChanged(id: string, before: string, after: string)
    | AttributeLost(id: string, key: string)
    | AttributeAdded(id: string, key: string)
    | AttributeChanged(id: string, key: string, before: string, after: string)
    | RelationLost(id: string)
    | RelationAdded(id: string)
    | RelationChanged(id: string, field: Field, before: string, after: string)

  datatype UnsupportedKind =
    | EvidenceNodes | RequirementEvidenceRefs | NonAssertedRelations | RelationsToNonRequirements | RelationPromotion
    | NodeProvenance | AttributeKeyNotRepresentable

  datatype Report = Report(requirementsCompared: nat, attributesCompared: nat, relationsCompared: nat,
                           differences: seq<Difference>, unsupported: map<UnsupportedKind, seq<string>>,
                           normalised: map<string, seq<string>>)

  function Subtypes(): string { "subtypes" }
  function RequirementWord(): string { "requirement" }

  /** The last requirement with this id, as collecting into a map keeps it. */
  function LastRequirement(rs: seq<Requirement>, id: string): Option<Requirement> {
    if rs == [] then None
    else if rs[|rs| - 1].id == id then Some(rs[|rs| - 1])
    else LastRequirement(rs[..|rs| - 1], id)
  }

  function LastRelation(rs: seq<Relation>, id: string): Option<Relation> {
    if rs == [] then None
    else if rs[|rs| - 1].id == id then Some(rs[|rs| - 1])
    else LastRelation(rs[..|rs| - 1], id)
  }

  // ---------------------------------------------------------------- what should be reported

  /** What the importer adds by itself: the statement as `text`, and a derived `subtypes`. */
  predicate IsAddition(before: Requirement, key: string, value: string) {
    || (key == TextKey() && value == before.text)
    || (key == Subtypes() && value == RequirementWord() && Subtypes() !in before.attributes)
  }

  function Expected(p: Profile, before: Requirement): map<string, string> {
    map k | k in before.attributes && Exportable(p, k) :: before.attributes[k]
  }

  function Actual(before: Requirement, now: Requirement): map<string, string> {
    map k | k in now.attributes && !IsAddition(before, k, now.attributes[k]) :: now.attributes[k]
  }

  /** What happened to some of the expected attributes. */
  function LostOrChanged(id: string, keys: set<string>, expected: map<string, string>,
                         actual: map<string, string>): set<Difference>
    requires keys <= expected.Keys
  {
    (set k | k in keys && k !in actual :: AttributeLost(id, k))
      + (set k | k in keys && k in actual && actual[k] != expected[k] ::
           AttributeChanged(id, k, expected[k], actual[k]))
  }

  function AttributeDiffs(id: string, expected: map<string, string>, actual: map<string, string>): set<Difference> {
    LostOrChanged(id, expected.Keys, expected, actual) + set k | k in actual && k !in expected :: AttributeAdded(id, k)
  }

  function RequirementDiffs(p: Profile, before: Requirement, after: Option<Requirement>): set<Difference> {
    if after.None? then {MissingRequirement(before.id)}
    else
      var now := after.value;
      (if before.title != now.title then {TitleChanged(before.id, before.title, now.title)} else {})
        + (if before.text != now.text then {TextChanged(before.id, before.text, now.text)} else {})
        + AttributeDiffs(before.id, Expected(p, before), Actual(before, now))
  }

  /** The `Debug` name of a relation kind. */
  function KindName(k: RelationKind): string {
    match k
    case Contains => "Contains"
    case Derives => "Derives"
    case Refines => "Refines"
    case Requires => "Requires"
    case Satisfies => "Satisfies"
    case Verifies => "Verifies"
    case Implements => "Implements"
    case Traces => "Traces"
    case AllocatedTo => "AllocatedTo"
    case Precedes => "Precedes"
  }

  lemma KindNameInjective(a: RelationKind, b: RelationKind)
    requires KindName(a) == KindName(b)
    ensures a == b
  {
  }

  function FieldDiff(id: string, field: Field, before: string, after: string): set<Difference> {
    if before != after then {RelationChanged(id, field, before, after)} else {}
  }

  function RelationDiffs(r: Relation, after: Option<Relation>): set<Difference> {
    if after.None? then {RelationLost(r.id)}
    else
      FieldDiff(r.id, KindField, KindName(r.kind), KindName(after.value.kind))
        + FieldDiff(r.id, SourceField, r.source, after.value.source)
        + FieldDiff(r.id, TargetField, r.target, after.value.target)
  }

  function RelationIds(rs: seq<Relation>): set<string> {
    set r | r in rs :: r.id
  }

  /** The ids of the relations the export carries. */
  function CarriedIds(ids: set<string>, rs: seq<Relation>): set<string> {
    set r | r in rs && Carried(ids, r) :: r.id
  }

  function RequirementsPart(p: Profile, rs: seq<Requirement>, m: RequirementGraph): set<Difference> {
    set b, d | b in rs && d in RequirementDiffs(p, b, LastRequirement(m.requirements, b.id)) :: d
  }

  function RelationsPart(ids: set<string>, rs: seq<Relation>, m: RequirementGraph): set<Difference> {
    set r, d | r in rs && Carried(ids, r) && d in RelationDiffs(r, LastRelation(m.relations, r.id)) :: d
  }

  function ExtraDiffs(ids: set<string>): set<Difference> {
    set id | id in ids :: ExtraRequirement(id)
  }

  function AddedDiffs(ids: set<string>): set<Difference> {
    set id | id in ids :: RelationAdded(id)
  }

  /** Every way the reimported graph departs from what the export carries. */
  function Differences(p: Profile, o: RequirementGraph, m: RequirementGraph): set<Difference> {
    var ids := RequirementIds(o.requirements);
    RequirementsPart(p, o.requirements, m)
      + ExtraDiffs(RequirementIds(m.requirements) - ids)
      + RelationsPart(ids, o.relations, m)
      + AddedDiffs(RelationIds(m.relations) - CarriedIds(ids, o.relations))
  }

  /** What one requirement contributes to the unsupported list. */
  function RequirementNotes(p: Profile, before: Requirement, after: Option<Requirement>): set<(UnsupportedKind,
    string)> {
    if after.None? then {}
    else
      (set k | k in before.attributes && !Exportable(p, k) :: (AttributeKeyNotRepresentable, before.id + ":" + k))
        + (if before.provenance != after.value.provenance then {(NodeProvenance, before.id)} else {})
        + (if before.evidence != [] then {(RequirementEvidenceRefs, before.id)} else {})
  }

  function RelationNotes(ids: set<string>, r: Relation): set<(UnsupportedKind, string)> {
    if !r.authority.Asserted? then {(NonAssertedRelations, r.id)}
    else if r.source !in ids || r.target !in ids then {(RelationsToNonRequirements, r.id)}
    else if r.promotion.Some? then {(RelationPromotion, r.id)}
    else {}
  }

  function NotesOf(p: Profile, rs: seq<Requirement>, m: RequirementGraph): set<(UnsupportedKind, string)> {
    set b, x | b in rs && x in RequirementNotes(p, b, LastRequirement(m.requirements, b.id)) :: x
  }

  function AdditionsOf(rs: seq<Requirement>, m: RequirementGraph): set<(string, string)> {
    set b, x | b in rs && x in RequirementAdditions(b, LastRequirement(m.requirements, b.id)) :: x
  }

  function RelationNotesOf(ids: set<string>, rs: seq<Relation>): set<(UnsupportedKind, string)> {
    set r, x | r in rs && x in RelationNotes(ids, r) :: x
  }

  /** Everything the export deliberately leaves out, with the ids it touches. */
  function Unsupported(p: Profile, o: RequirementGraph, m: RequirementGraph): set<(UnsupportedKind, string)> {
    var ids := RequirementIds(o.requirements);
    NotesOf(p, o.requirements, m)
      + (set e | e in o.evidence :: (EvidenceNodes, e.id))
      + RelationNotesOf(ids, o.relations)
  }

  function AdditionName(key: string): string {
    if key == TextKey() then TextKey() else Subtypes()
  }

  function RequirementAdditions(before: Requirement, after: Option<Requirement>): set<(string, string)> {
    if after.None? then {}
    else set k | k in after.value.attributes && IsAddition(before, k, after.value.attributes[k]) ::
           (AdditionName(k), before.id)
  }

  function CountFound(rs: seq<Requirement>, m: RequirementGraph): nat {
    if rs == [] then 0
    else CountFound(rs[..|rs| - 1], m) + if LastRequirement(m.requirements, rs[|rs| - 1].id).Some? then 1 else 0
  }

  function CountAttributes(p: Profile, rs: seq<Requirement>, m: RequirementGraph): nat {
    if rs == [] then 0
    else
      var b := rs[|rs| - 1];
      CountAttributes(p, rs[..|rs| - 1], m) + if LastRequirement(m.requirements, b.id).Some? then |Expected(p, b)|
        else 0
  }

  function CountCarried(ids: set<string>, rs: seq<Relation>): nat {
    if rs == [] then 0 else CountCarried(ids, rs[..|rs| - 1]) + if Carried(ids, rs[|rs| - 1]) then 1 else 0
  }

  // ---------------------------------------------------------------- lists by kind

  /** `entry(k).or_default().push(x)`. */
  function Note<K(==)>(m: map<K, seq<string>>, k: K, x: string): map<K, seq<string>> {
    m[k := (if k in m then m[k] else []) + [x]]
  }

  ghost function Pairs<K(!new)>(m: map<K, seq<string>>): set<(K, string)> {
    set k, x | k in m && x in m[k] :: (k, x)
  }

  ghost predicate NoneEmpty<K(!new)>(m: map<K, seq<string>>) {
    forall k :: k in m ==> m[k] != []
  }

  lemma NotePairs<K(!new)>(m: map<K, seq<string>>, k: K, x: string)
    requires NoneEmpty(m)
    ensures Pairs(Note(m, k, x)) == Pairs(m) + {(k, x)} && NoneEmpty(Note(m, k, x))
  {
    var after := Note(m, k, x);
    forall pair ensures pair in Pairs(after) <==> pair in Pairs(m) || pair == (k, x) {
      if pair in Pairs(after) {
        assert pair.0 in after && pair.1 in after[pair.0];
      }
      if pair in Pairs(m) {
        assert pair.0 in after && pair.1 in after[pair.0];
      }
      if pair == (k, x) { assert x in after[k]; }
    }
  }

  ghost function IdsOf<K(!new)>(pairs: set<(K, string)>, k: K): set<string> {
    set pair | pair in pairs && pair.0 == k :: pair.1
  }

  /** The lists, each sorted and without repetitions, of the pairs noted. */
  ghost predicate Lists<K(!new)>(m: map<K, seq<string>>, pairs: set<(K, string)>) {
    && (forall k :: k in m <==> IdsOf(pairs, k) != {})
    && (forall k :: k in m ==> m[k] == InOrder(IdsOf(pairs, k)))
  }

  /** `ids.sort(); ids.dedup()`. */
  lemma SortDedup(xs: seq<string>)
    ensures Dedup(Sort(xs, StrKey)) == InOrder(set x | x in xs)
  {
    var sorted := Sort(xs, StrKey);
    SortSorts(xs, StrKey);
    forall a, b | StrKey(a) == StrKey(b) ensures a == b { FieldDistinguishes(a, b); }
    DedupStrict(sorted, StrKey);
    forall x ensures x in Dedup(sorted) <==> x in xs {
      DedupMember(sorted, x);
      SortMember(xs, StrKey, x);
    }
    StrictlySortedUnique(Dedup(sorted), InOrder(set x | x in xs), StrKey);
  }

  function Tidied<K>(m: map<K, seq<string>>): map<K, seq<string>> {
    map k | k in m :: Dedup(Sort(m[k], StrKey))
  }

  lemma TidiedLists<K(!new)>(m: map<K, seq<string>>)
    requires NoneEmpty(m)
    ensures Lists(Tidied(m), Pairs(m))
  {
    var pairs := Pairs(m);
    hide InOrder, Dedup, Sort;
    forall k ensures k in m <==> IdsOf(pairs, k) != {} {
      if k in m { assert (k, m[k][0]) in pairs; assert m[k][0] in IdsOf(pairs, k); }
    }
    forall k | k in m ensures Tidied(m)[k] == InOrder(IdsOf(pairs, k)) {
      SortDedup(m[k]);
      forall x ensures x in IdsOf(pairs, k) <==> x in m[k] {
        if x in m[k] { assert (k, x) in pairs; }
      }
      assert IdsOf(pairs, k) == set x | x in m[k];
    }
  }

  // ---------------------------------------------------------------- the comparison

  function AsSet(ds: seq<Difference>): set<Difference> {
    set d | d in ds
  }

  lemma AsSetSnoc(ds: seq<Difference>, d: Difference)
    ensures AsSet(ds + [d]) == AsSet(ds) + {d}
  {
  }

  /** The keys of `before` the export is expected to carry, and a note for each it is not. */
  method CollectExpected(p: Profile, before: Requirement, noted: map<UnsupportedKind, seq<string>>)
    returns (expected: map<string, string>, unsupported: map<UnsupportedKind, seq<string>>)
    requires NoneEmpty(noted)
    ensures expected == Expected(p, before) && NoneEmpty(unsupported)
    ensures Pairs(unsupported) == Pairs(noted)
              + set k | k in before.attributes && !Exportable(p, k) ::
                  (AttributeKeyNotRepresentable, before.id + ":" + k)
  {
    expected, unsupported := map[], noted;
    var keys := InOrder(before.attributes.Keys);
    hide Exportable, InOrder, StrictlySorted, Pairs, NoneEmpty;
    assert keys[..0] == [];
    for j := 0 to |keys|
      invariant expected == map k | k in keys[..j] && Exportable(p, k) :: before.attributes[k]
      invariant NoneEmpty(unsupported)
      invariant Pairs(unsupported) == Pairs(noted)
                  + set k | k in keys[..j] && !Exportable(p, k) :: (AttributeKeyNotRepresentable, before.id + ":" + k)
    {
      var key := keys[j];
      assert keys[..j + 1] == keys[..j] + [key] && key in keys;
      if Exportable(p, key) {
        expected := expected[key := before.attributes[key]];
      } else {
        NotePairs(unsupported, AttributeKeyNotRepresentable, before.id + ":" + key);
        unsupported := Note(unsupported, AttributeKeyNotRepresentable, before.id + ":" + key);
      }
    }
    assert keys[..|keys|] == keys;
  }

  /** The attributes that came back, less what the importer adds by itself. */
  method CollectActual(before: Requirement, now: Requirement, noted: map<string, seq<string>>)
    returns (actual: map<string, string>, normalised: map<string, seq<string>>)
    requires NoneEmpty(noted)
    ensures actual == Actual(before, now) && NoneEmpty(normalised)
    ensures Pairs(normalised) == Pairs(noted) + RequirementAdditions(before, Some(now))
  {
    actual, normalised := map[], noted;
    var keys := InOrder(now.attributes.Keys);
    ghost var seen: set<string> := {};
    hide InOrder, StrictlySorted, Pairs, NoneEmpty, TextKey, Subtypes, RequirementWord;
    for j := 0 to |keys|
      invariant seen == set k | k in keys[..j]
      invariant actual == Unexplained(before, now, seen) && NoneEmpty(normalised)
      invariant Pairs(normalised) == Pairs(noted) + Explained(before, now, seen)
    {
      var key := keys[j];
      assert keys[..j + 1] == keys[..j] + [key] && key in keys;
      var value := now.attributes[key];
      ExplainedMore(before, now, seen, key);
      TextIsNotSubtypes();
      hide Unexplained, Explained;
      seen := seen + {key};
      if key == TextKey() && value == before.text {
        NotePairs(normalised, TextKey(), before.id);
        normalised := Note(normalised, TextKey(), before.id);
      } else if key == Subtypes() && value == RequirementWord() && Subtypes() !in before.attributes {
        NotePairs(normalised, Subtypes(), before.id);
        normalised := Note(normalised, Subtypes(), before.id);
      } else {
        actual := actual[key := value];
      }
    }
    assert keys[..|keys|] == keys;
    assert seen == now.attributes.Keys;
  }

  /** Among some attributes that came back: those the importer did not add, and those it did. */
  function Unexplained(before: Requirement, now: Requirement, keys: set<string>): map<string, string>
    requires keys <= now.attributes.Keys
  {
    map k | k in keys && !IsAddition(before, k, now.attributes[k]) :: now.attributes[k]
  }

  function Explained(before: Requirement, now: Requirement, keys: set<string>): set<(string, string)>
    requires keys <= now.attributes.Keys
  {
    set k | k in keys && IsAddition(before, k, now.attributes[k]) :: (AdditionName(k), before.id)
  }

  lemma ExplainedMore(before: Requirement, now: Requirement, keys: set<string>, key: string)
    requires keys <= now.attributes.Keys && key in now.attributes
    ensures Unexplained(before, now, keys + {key})
            == if IsAddition(before, key, now.attributes[key]) then Unexplained(before, now, keys)
               else Unexplained(before, now, keys)[key := now.attributes[key]]
    ensures Explained(before, now, keys + {key})
            == Explained(before, now, keys)
               + if IsAddition(before, key, now.attributes[key]) then {(AdditionName(key), before.id)} else {}
  {
    hide IsAddition, AdditionName;
  }

  lemma TextIsNotSubtypes()
    ensures TextKey() != Subtypes()
  {
    assert TextKey()[0] == 't' && Subtypes()[0] == 's';
  }

  lemma LostOrChangedMore(id: string, keys: set<string>, key: string, expected: map<string, string>,
                          actual: map<string, string>)
    requires keys <= expected.Keys && key in expected
    ensures LostOrChanged(id, keys + {key}, expected, actual)
            == LostOrChanged(id, keys, expected, actual)
               + if key !in actual then {AttributeLost(id, key)}
                 else if actual[key] != expected[key] then {AttributeChanged(id, key, expected[key], actual[key])}
                   else {}
  {
  }

  lemma NothingLost(id: string, expected: map<string, string>, actual: map<string, string>)
    ensures LostOrChanged(id, {}, expected, actual) == AsSet([])
  {
  }

  method CompareExpected(id: string, expected: map<string, string>, actual: map<string, string>)
    returns (differences: seq<Difference>)
    ensures AsSet(differences) == LostOrChanged(id, expected.Keys, expected, actual)
  {
    differences := [];
    var keys := InOrder(expected.Keys);
    NothingLost(id, expected, actual);
    hide LostOrChanged, AsSet, InOrder, StrictlySorted;
    ghost var seen: set<string> := {};
    for j := 0 to |keys|
      invariant seen == set k | k in keys[..j]
      invariant AsSet(differences) == LostOrChanged(id, seen, expected, actual)
    {
      var key := keys[j];
      assert keys[..j + 1] == keys[..j] + [key] && key in keys;
      LostOrChangedMore(id, seen, key, expected, actual);
      seen := seen + {key};
      if key !in actual {
        AsSetSnoc(differences, AttributeLost(id, key));
        differences := differences + [AttributeLost(id, key)];
      } else if actual[key] != expected[key] {
        AsSetSnoc(differences, AttributeChanged(id, key, expected[key], actual[key]));
        differences := differences + [AttributeChanged(id, key, expected[key], actual[key])];
      }
    }
    assert keys[..|keys|] == keys;
    assert seen == expected.Keys;
  }

  method CompareAttributes(id: string, expected: map<string, string>, actual: map<string, string>)
    returns (differences: seq<Difference>)
    ensures AsSet(differences) == AttributeDiffs(id, expected, actual)
  {
    differences := CompareExpected(id, expected, actual);
    var added := InOrder(actual.Keys - expected.Keys);
    hide InOrder, StrictlySorted;
    ghost var before := AsSet(differences);
    for j := 0 to |added|
      invariant AsSet(differences) == before + set k | k in added[..j] :: AttributeAdded(id, k)
    {
      assert added[..j + 1] == added[..j] + [added[j]];
      AsSetSnoc(differences, AttributeAdded(id, added[j]));
      differences := differences + [AttributeAdded(id, added[j])];
    }
    assert added[..|added|] == added;
  }

  lemma AsSetConcat(a: seq<Difference>, b: seq<Difference>)
    ensures AsSet(a + b) == AsSet(a) + AsSet(b)
  {
  }

  /** One original requirement against the reimported one of the same id. */
  method CompareRequirement(p: Profile, before: Requirement, now: Requirement, noted: map<UnsupportedKind, seq<string>>,
                            added: map<string, seq<string>>)
    returns (differences: seq<Difference>, compared: nat, unsupported: map<UnsupportedKind, seq<string>>,
             normalised: map<string, seq<string>>)
    requires NoneEmpty(noted) && NoneEmpty(added)
    ensures AsSet(differences) == RequirementDiffs(p, before, Some(now)) && compared == |Expected(p, before)|
    ensures NoneEmpty(unsupported) && Pairs(unsupported) == Pairs(noted) + RequirementNotes(p, before, Some(now))
    ensures NoneEmpty(normalised) && Pairs(normalised) == Pairs(added) + RequirementAdditions(before, Some(now))
  {
    hide Pairs, NoneEmpty, AsSet, Exportable, Expected, Actual, AttributeDiffs, RequirementAdditions;
    differences := CompareTexts(before, now);
    var expected, actual;
    expected, unsupported := CollectExpected(p, before, noted);
    actual, normalised := CollectActual(before, now, added);
    compared := |expected|;
    var attributes := CompareAttributes(before.id, expected, actual);
    AsSetConcat(differences, attributes);
    differences := differences + attributes;
    unsupported := NoteRequirement(before, now, unsupported);
  }

  method CompareTexts(before: Requirement, now: Requirement) returns (differences: seq<Difference>)
    ensures AsSet(differences)
            == (if before.title != now.title then {TitleChanged(before.id, before.title, now.title)} else {})
               + (if before.text != now.text then {TextChanged(before.id, before.text, now.text)} else {})
  {
    differences := [];
    if before.title != now.title { differences := differences + [TitleChanged(before.id, before.title, now.title)]; }
    if before.text != now.text { differences := differences + [TextChanged(before.id, before.text, now.text)]; }
  }

  method NoteRequirement(before: Requirement, now: Requirement, noted: map<UnsupportedKind, seq<string>>)
    returns (unsupported: map<UnsupportedKind, seq<string>>)
    requires NoneEmpty(noted)
    ensures NoneEmpty(unsupported)
    ensures Pairs(unsupported) == Pairs(noted)
              + (if before.provenance != now.provenance then {(NodeProvenance, before.id)} else {})
              + (if before.evidence != [] then {(RequirementEvidenceRefs, before.id)} else {})
  {
    unsupported := noted;
    hide Pairs, NoneEmpty;
    if before.provenance != now.provenance {
      NotePairs(unsupported, NodeProvenance, before.id);
      unsupported := Note(unsupported, NodeProvenance, before.id);
    }
    if before.evidence != [] {
      NotePairs(unsupported, RequirementEvidenceRefs, before.id);
      unsupported := Note(unsupported, RequirementEvidenceRefs, before.id);
    }
  }

  /** One carried relation against the reimported one of the same id. */
  method CompareRelation(r: Relation, after: Option<Relation>) returns (differences: seq<Difference>)
    ensures AsSet(differences) == RelationDiffs(r, after)
  {
    if after.None? { return [RelationLost(r.id)]; }
    var now := after.value;
    differences := [];
    hide KindName;
    if KindName(r.kind) != KindName(now.kind) {
      differences := differences + [RelationChanged(r.id, KindField, KindName(r.kind), KindName(now.kind))];
    }
    if r.source != now.source {
      differences := differences + [RelationChanged(r.id, SourceField, r.source, now.source)];
    }
    if r.target != now.target {
      differences := differences + [RelationChanged(r.id, TargetField, r.target, now.target)];
    }
  }

  /** The loop over the original requirements. */
  method CompareRequirements(p: Profile, o: RequirementGraph, m: RequirementGraph)
    returns (differences: seq<Difference>, found: nat, attributes: nat, unsupported: map<UnsupportedKind, seq<string>>,
             normalised: map<string, seq<string>>)
    ensures AsSet(differences) == RequirementsPart(p, o.requirements, m)
    ensures found == CountFound(o.requirements, m) && attributes == CountAttributes(p, o.requirements, m)
    ensures NoneEmpty(unsupported) && NoneEmpty(normalised)
    ensures Pairs(unsupported) == NotesOf(p, o.requirements, m) && Pairs(normalised) == AdditionsOf(o.requirements, m)
  {
    differences, found, attributes, unsupported, normalised := [], 0, 0, map[], map[];
    var rs := o.requirements;
    hide Exportable, RequirementDiffs, RequirementNotes, RequirementAdditions, LastRequirement, Expected;
    for i := 0 to |rs|
      invariant AsSet(differences) == RequirementsPart(p, rs[..i], m)
      invariant found == CountFound(rs[..i], m) && attributes == CountAttributes(p, rs[..i], m)
      invariant NoneEmpty(unsupported) && NoneEmpty(normalised)
      invariant Pairs(unsupported) == NotesOf(p, rs[..i], m) && Pairs(normalised) == AdditionsOf(rs[..i], m)
    {
      var before := rs[i];
      var after := LastRequirement(m.requirements, before.id);
      RequirementStep(p, rs, m, i);
      hide RequirementsPart, NotesOf, AdditionsOf, CountFound, CountAttributes, Pairs, NoneEmpty, AsSet;
      NothingFor(p, before);
      if after.None? {
        AsSetSnoc(differences, MissingRequirement(before.id));
        differences := differences + [MissingRequirement(before.id)];
      } else {
        var ds, compared;
        ds, compared, unsupported, normalised := CompareRequirement(p, before, after.value, unsupported, normalised);
        AsSetConcat(differences, ds);
        differences := differences + ds;
        found, attributes := found + 1, attributes + compared;
      }
    }
    assert rs[..|rs|] == rs;
  }

  lemma NothingFor(p: Profile, b: Requirement)
    ensures RequirementDiffs(p, b, None) == {MissingRequirement(b.id)}
    ensures RequirementNotes(p, b, None) == {} && RequirementAdditions(b, None) == {}
  {
  }

  lemma RequirementStep(p: Profile, rs: seq<Requirement>, m: RequirementGraph, i: nat)
    requires i < |rs|
    ensures var (b, after) := (rs[i], LastRequirement(m.requirements, rs[i].id));
            && RequirementsPart(p, rs[..i + 1], m) == RequirementsPart(p, rs[..i], m) + RequirementDiffs(p, b, after)
            && NotesOf(p, rs[..i + 1], m) == NotesOf(p, rs[..i], m) + RequirementNotes(p, b, after)
            && AdditionsOf(rs[..i + 1], m) == AdditionsOf(rs[..i], m) + RequirementAdditions(b, after)
            && CountFound(rs[..i + 1], m) == CountFound(rs[..i], m) + (if after.Some? then 1 else 0)
            && CountAttributes(p, rs[..i + 1], m)
               == CountAttributes(p, rs[..i], m) + if after.Some? then |Expected(p, b)| else 0
  {
    hide Exportable, RequirementDiffs, RequirementNotes, RequirementAdditions, LastRequirement, Expected;
    assert rs[..i + 1] == rs[..i] + [rs[i]];
    assert rs[..i + 1][..i] == rs[..i];
  }

  // ---------------------------------------------------------------- relations and the whole report

  /** One original relation: noted as unsupported, or compared. */
  method CheckRelation(ids: set<string>, r: Relation, after: Option<Relation>, noted: map<UnsupportedKind, seq<string>>)
    returns (differences: seq<Difference>, carried: bool, unsupported: map<UnsupportedKind, seq<string>>)
    requires NoneEmpty(noted)
    ensures AsSet(differences) == (if Carried(ids, r) then RelationDiffs(r, after) else {})
            && carried == Carried(ids, r)
    ensures NoneEmpty(unsupported) && Pairs(unsupported) == Pairs(noted) + RelationNotes(ids, r)
  {
    differences, carried, unsupported := [], false, noted;
    assert AsSet([]) == {};
    hide Pairs, NoneEmpty, AsSet, RelationDiffs;
    if !r.authority.Asserted? {
      NotePairs(unsupported, NonAssertedRelations, r.id);
      unsupported := Note(unsupported, NonAssertedRelations, r.id);
    } else if r.source !in ids || r.target !in ids {
      NotePairs(unsupported, RelationsToNonRequirements, r.id);
      unsupported := Note(unsupported, RelationsToNonRequirements, r.id);
    } else {
      carried := true;
      if r.promotion.Some? {
        NotePairs(unsupported, RelationPromotion, r.id);
        unsupported := Note(unsupported, RelationPromotion, r.id);
      }
      differences := CompareRelation(r, after);
    }
  }

  method CompareRelations(o: RequirementGraph, m: RequirementGraph, noted: map<UnsupportedKind, seq<string>>)
    returns (differences: seq<Difference>, compared: nat, expectedIds: set<string>,
             unsupported: map<UnsupportedKind, seq<string>>)
    requires NoneEmpty(noted)
    ensures var ids := RequirementIds(o.requirements);
            && AsSet(differences) == RelationsPart(ids, o.relations, m) && compared == CountCarried(ids, o.relations)
            && expectedIds == CarriedIds(ids, o.relations)
            && Pairs(unsupported) == Pairs(noted) + RelationNotesOf(ids, o.relations)
    ensures NoneEmpty(unsupported)
  {
    var ids := RequirementIds(o.requirements);
    var rs := o.relations;
    differences, compared, expectedIds, unsupported := [], 0, {}, noted;
    hide RelationDiffs, LastRelation;
    for i := 0 to |rs|
      invariant AsSet(differences) == RelationsPart(ids, rs[..i], m) && compared == CountCarried(ids, rs[..i])
      invariant expectedIds == CarriedIds(ids, rs[..i]) && NoneEmpty(unsupported)
      invariant Pairs(unsupported) == Pairs(noted) + RelationNotesOf(ids, rs[..i])
    {
      var r := rs[i];
      RelationStep(ids, rs, m, i);
      hide RelationsPart, RelationNotesOf, CountCarried, CarriedIds, Pairs, NoneEmpty, AsSet, RelationNotes, Carried;
      var ds, carried;
      ds, carried, unsupported := CheckRelation(ids, r, LastRelation(m.relations, r.id), unsupported);
      AsSetConcat(differences, ds);
      differences := differences + ds;
      if carried { expectedIds, compared := expectedIds + {r.id}, compared + 1; }
    }
    assert rs[..|rs|] == rs;
  }

  lemma RelationStep(ids: set<string>, rs: seq<Relation>, m: RequirementGraph, i: nat)
    requires i < |rs|
    ensures var r := rs[i];
            && RelationsPart(ids, rs[..i + 1], m)
               == RelationsPart(ids, rs[..i], m)
                 + (if Carried(ids, r) then RelationDiffs(r, LastRelation(m.relations, r.id)) else {})
            && RelationNotesOf(ids, rs[..i + 1]) == RelationNotesOf(ids, rs[..i]) + RelationNotes(ids, r)
            && CarriedIds(ids, rs[..i + 1]) == CarriedIds(ids, rs[..i]) + (if Carried(ids, r) then {r.id} else {})
            && CountCarried(ids, rs[..i + 1]) == CountCarried(ids, rs[..i]) + if Carried(ids, r) then 1 else 0
  {
    hide RelationDiffs, RelationNotes, LastRelation, Carried;
    assert rs[..i + 1] == rs[..i] + [rs[i]];
    assert rs[..i + 1][..i] == rs[..i];
  }

  /** Appending one difference for each id of a set. */
  method Append(differences: seq<Difference>, ids: set<string>, extra: bool) returns (more: seq<Difference>)
    ensures AsSet(more) == AsSet(differences)
              + if extra then ExtraDiffs(ids) else AddedDiffs(ids)
  {
    more := differences;
    var order := InOrder(ids);
    hide InOrder, StrictlySorted;
    for j := 0 to |order|
      invariant AsSet(more) == AsSet(differences)
                  + (if extra then set id | id in order[..j] :: ExtraRequirement(id)
                    else set id | id in order[..j] :: RelationAdded(id))
    {
      assert order[..j + 1] == order[..j] + [order[j]];
      var d := if extra then ExtraRequirement(order[j]) else RelationAdded(order[j]);
      AsSetSnoc(more, d);
      more := more + [d];
    }
    assert order[..|order|] == order;
  }

  method NoteEvidence(o: RequirementGraph, noted: map<UnsupportedKind, seq<string>>)
    returns (unsupported: map<UnsupportedKind, seq<string>>)
    requires NoneEmpty(noted)
    ensures NoneEmpty(unsupported)
            && Pairs(unsupported) == Pairs(noted) + set e | e in o.evidence :: (EvidenceNodes, e.id)
  {
    unsupported := noted;
    hide Pairs, NoneEmpty;
    for i := 0 to |o.evidence|
      invariant NoneEmpty(unsupported)
      invariant Pairs(unsupported) == Pairs(noted) + set e | e in o.evidence[..i] :: (EvidenceNodes, e.id)
    {
      assert o.evidence[..i + 1] == o.evidence[..i] + [o.evidence[i]];
      NotePairs(unsupported, EvidenceNodes, o.evidence[i].id);
      unsupported := Note(unsupported, EvidenceNodes, o.evidence[i].id);
    }
    assert o.evidence[..|o.evidence|] == o.evidence;
  }

  /** `compare`. */
  method Compare(p: Profile, o: RequirementGraph, m: RequirementGraph) returns (report: Report)
    ensures AsSet(report.differences) == Differences(p, o, m)
    ensures Lists(report.unsupported, Unsupported(p, o, m)) && Lists(report.normalised, AdditionsOf(o.requirements, m))
    ensures report.requirementsCompared == CountFound(o.requirements, m)
    ensures report.attributesCompared == CountAttributes(p, o.requirements, m)
    ensures report.relationsCompared == CountCarried(RequirementIds(o.requirements), o.relations)
  {
    hide Pairs, NoneEmpty, AsSet, RequirementsPart, RelationsPart, NotesOf, AdditionsOf, RelationNotesOf, CountFound,
      CountAttributes, CountCarried, CarriedIds, RequirementIds, RelationIds, Lists, Tidied;
    var differences, found, attributes, unsupported, normalised := CompareRequirements(p, o, m);
    differences := Append(differences, RequirementIds(m.requirements) - RequirementIds(o.requirements), true);
    unsupported := NoteEvidence(o, unsupported);
    var ds, compared, expectedIds;
    ds, compared, expectedIds, unsupported := CompareRelations(o, m, unsupported);
    AsSetConcat(differences, ds);
    differences := Append(differences + ds, RelationIds(m.relations) - expectedIds, false);
    TidiedLists(unsupported);
    TidiedLists(normalised);
    report := Report(found, attributes, compared, differences, Tidied(unsupported), Tidied(normalised));
  }
}
