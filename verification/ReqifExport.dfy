/** `crates/kr0ki-core/src/reqif_export.rs`: a requirement graph as ReqIF content, and how a reader
    decodes an attribute value through its declaration. */
module ReqifExport {
  import opened Ordering
  import opened Requirements
  import opened Wrappers

  /** Unicode lower case, and the closed vocabularies of the assurance profile. */
  datatype Profile = Profile(lower: string -> string, vocabulary: string -> Option<seq<string>>)

  // ---------------------------------------------------------------- ReqIF content

  datatype EnumValue = EnumValue(id: string, key: string)

  datatype DataType = StringType(id: string) | EnumType(id: string, values: seq<EnumValue>)

  datatype Definition =
    | StringDef(id: string, longName: string, typeRef: string)
    | EnumDef(id: string, longName: string, typeRef: string)

  datatype AttributeValue =
    | StringValue(definition: string, value: string)
    | EnumRef(definition: string, values: seq<string>)

  datatype SpecObject = SpecObject(id: string, longName: string, values: seq<AttributeValue>)

  datatype SpecRelation = SpecRelation(id: string, relationType: string, source: string, target: string)

  datatype RelationType = RelationType(id: string, longName: string)

  datatype AttrBinding = TextBinding(def: string) | EnumBinding(def: string, values: map<string, string>)

  datatype TypeLayer = TypeLayer(dataTypes: seq<DataType>, defs: seq<Definition>, attributes: map<string, AttrBinding>)

  datatype Bundle = Bundle(header: string, layer: TypeLayer, relationTypes: seq<RelationType>, objects: seq<SpecObject>,
                           relations: seq<SpecRelation>)

  // ---------------------------------------------------------------- identifiers

  function TextKey(): string { "text" }
  function TextName(): string { "Text" }
  function StringTypeId(): string { "DT-STRING" }
  function TextDefId(): string { "AD-TEXT" }
  function DefId(key: string): string { "AD-ATTR-" + key }
  function EnumTypeId(key: string): string { "DT-ENUM-" + key }
  function EnumValueId(key: string, value: string): string { "EV-" + key + "-" + value }

  function Underscored(s: string): string {
    seq(|s|, k requires 0 <= k < |s| => if s[k] == ' ' || s[k] == '-' then '_' else s[k])
  }

  /** `is_exportable_attribute_key`. */
  predicate Exportable(p: Profile, key: string) {
    key != "" && key != TextKey() && key == Underscored(p.lower(key))
  }

  lemma ExportableNoDash(p: Profile, key: string)
    requires Exportable(p, key)
    ensures '-' !in key
  {
    forall k | 0 <= k < |key| ensures key[k] != '-' {
      assert key[k] == Underscored(p.lower(key))[k];
    }
  }

  lemma DefIdInjective(a: string, b: string)
    requires DefId(a) == DefId(b)
    ensures a == b
  {
    assert DefId(a)[8..] == a && DefId(b)[8..] == b;
  }

  lemma EnumTypeIdInjective(a: string, b: string)
    requires EnumTypeId(a) == EnumTypeId(b)
    ensures a == b
  {
    assert EnumTypeId(a)[8..] == a && EnumTypeId(b)[8..] == b;
  }

  lemma DefIdsApart(key: string)
    ensures DefId(key) != TextDefId() && EnumTypeId(key) != StringTypeId()
  {
    assert DefId(key)[3] == 'A' && TextDefId()[3] == 'T';
    assert EnumTypeId(key)[3] == 'E' && StringTypeId()[3] == 'S';
  }

  /** Keys have no dash, so the first one ends the key. */
  lemma EnumValueIdInjective(k: string, v: string, k': string, v': string)
    requires '-' !in k && '-' !in k' && EnumValueId(k, v) == EnumValueId(k', v')
    ensures k == k' && v == v'
  {
    var s, t := EnumValueId(k, v), EnumValueId(k', v');
    assert s[3 + |k|] == '-' && t[3 + |k'|] == '-';
    assert forall i :: 0 <= i < |k| ==> s[3 + i] == k[i] && k[i] != '-';
    assert forall i :: 0 <= i < |k'| ==> t[3 + i] == k'[i] && k'[i] != '-';
    assert |k| == |k'|;
    assert s[3..3 + |k|] == k && t[3..3 + |k|] == k';
    assert s[4 + |k|..] == v && t[4 + |k|..] == v';
  }

  // ---------------------------------------------------------------- the type layer

  /** The values a key takes in the graph. */
  function Seen(rs: seq<Requirement>, key: string): set<string> {
    set r | r in rs && key in r.attributes :: r.attributes[key]
  }

  function ExportedKeys(p: Profile, rs: seq<Requirement>): set<string> {
    set r, k | r in rs && k in r.attributes && Exportable(p, k) :: k
  }

  /** A key is declared as an enumeration when every value it takes is in its vocabulary. */
  predicate Enumerated(p: Profile, rs: seq<Requirement>, key: string) {
    p.vocabulary(key).Some? && forall v :: v in Seen(rs, key) ==> v in p.vocabulary(key).value
  }

  function ValueIds(key: string, vocab: seq<string>): map<string, string> {
    map v | v in vocab :: EnumValueId(key, v)
  }

  function EnumValues(key: string, vocab: seq<string>): seq<EnumValue> {
    seq(|vocab|, i requires 0 <= i < |vocab| => EnumValue(EnumValueId(key, vocab[i]), vocab[i]))
  }

  function BindingOf(p: Profile, rs: seq<Requirement>, key: string): AttrBinding {
    if Enumerated(p, rs, key) then EnumBinding(DefId(key), ValueIds(key, p.vocabulary(key).value))
      else TextBinding(DefId(key))
  }

  function DefOf(p: Profile, rs: seq<Requirement>, key: string): Definition {
    if Enumerated(p, rs, key) then EnumDef(DefId(key), key, EnumTypeId(key))
      else StringDef(DefId(key), key, StringTypeId())
  }

  function TextDef(): Definition {
    StringDef(TextDefId(), TextName(), StringTypeId())
  }

  /** The definitions for the keys, in order. */
  function Defs(p: Profile, rs: seq<Requirement>, keys: seq<string>): seq<Definition> {
    if keys == [] then [TextDef()] else Defs(p, rs, keys[..|keys| - 1]) + [DefOf(p, rs, keys[|keys| - 1])]
  }

  function Types(p: Profile, rs: seq<Requirement>, keys: seq<string>): seq<DataType> {
    if keys == [] then [StringType(StringTypeId())]
    else
      var key := keys[|keys| - 1];
      Types(p, rs, keys[..|keys| - 1])
        + if Enumerated(p, rs, key) then [EnumType(EnumTypeId(key), EnumValues(key, p.vocabulary(key).value))] else []
  }

  /** The declarations for the attributes of a graph. */
  function LayerOf(p: Profile, rs: seq<Requirement>): TypeLayer {
    var keys := ExportedKeys(p, rs);
    TypeLayer(Types(p, rs, InOrder(keys)), Defs(p, rs, InOrder(keys)), map k | k in keys :: BindingOf(p, rs, k))
  }

  function With(before: map<string, set<string>>, key: string, value: string): map<string, set<string>> {
    before[key := (if key in before then before[key] else {}) + {value}]
  }

  /** The values of a key after some attributes of a requirement. */
  function MergedAt(p: Profile, r: Requirement, before: map<string, set<string>>, keys: set<string>,
                    k: string): set<string>
    requires keys <= r.attributes.Keys
  {
    (if k in before then before[k] else {}) + if k in keys && Exportable(p, k) then {r.attributes[k]} else {}
  }

  function Merged(p: Profile, r: Requirement, before: map<string, set<string>>,
                  keys: set<string>): map<string, set<string>>
    requires keys <= r.attributes.Keys
  {
    map k | k in before.Keys + (set x | x in keys && Exportable(p, x)) :: MergedAt(p, r, before, keys, k)
  }

  lemma MergedMore(p: Profile, r: Requirement, before: map<string, set<string>>, keys: set<string>, key: string)
    requires keys <= r.attributes.Keys && key in r.attributes && key !in keys
    ensures Merged(p, r, before, keys + {key})
            == if Exportable(p, key) then With(Merged(p, r, before, keys), key, r.attributes[key])
              else Merged(p, r, before, keys)
  {
    hide Exportable;
    var after := if Exportable(p, key) then With(Merged(p, r, before, keys), key, r.attributes[key])
      else Merged(p, r, before, keys);
    assert Merged(p, r, before, keys + {key}).Keys == after.Keys;
    forall k | k in after ensures MergedAt(p, r, before, keys + {key}, k) == after[k] {
      if k != key { assert after[k] == MergedAt(p, r, before, keys, k); }
    }
    hide MergedAt, With;
  }

  lemma MergedNone(p: Profile, r: Requirement, before: map<string, set<string>>)
    ensures Merged(p, r, before, {}) == before
  {
    hide Exportable;
    forall k | k in before ensures MergedAt(p, r, before, {}, k) == before[k] {}
  }

  /** The attributes of one requirement. */
  method AddValues(p: Profile, r: Requirement, before: map<string, set<string>>)
    returns (values: map<string, set<string>>)
    ensures values == Merged(p, r, before, r.attributes.Keys)
  {
    values := before;
    var keys := InOrder(r.attributes.Keys);
    ghost var seen: set<string> := {};
    MergedNone(p, r, before);
    hide StrictlySorted, Merged, MergedAt;
    for j := 0 to |keys|
      invariant seen == set k | k in keys[..j]
      invariant values == Merged(p, r, before, seen)
    {
      var key := keys[j];
      assert key !in seen by { NotRepeated(r.attributes.Keys, j); }
      hide Exportable, StrictlySorted, InOrder, With, Merged, MergedAt;
      assert keys[..j + 1] == keys[..j] + [key] && key in keys;
      MergedMore(p, r, before, seen, key);
      seen := seen + {key};
      if Exportable(p, key) { values := With(values, key, r.attributes[key]); }
    }
    assert keys[..|keys|] == keys;
    assert seen == r.attributes.Keys;
  }

  lemma NotRepeated(s: set<string>, j: nat)
    requires j < |InOrder(s)|
    ensures InOrder(s)[j] !in InOrder(s)[..j]
  {
    forall i | 0 <= i < j ensures InOrder(s)[i] != InOrder(s)[j] {
      assert StrKey(InOrder(s)[i]) != StrKey(InOrder(s)[j]);
    }
  }

  /** The first loop of `type_layer`: which keys occur, with which values. */
  method ValuesByKey(p: Profile, rs: seq<Requirement>) returns (values: map<string, set<string>>)
    ensures values.Keys == ExportedKeys(p, rs)
    ensures forall k :: k in values ==> values[k] == Seen(rs, k)
  {
    values := map[];
    hide Exportable;
    for i := 0 to |rs|
      invariant values.Keys == ExportedKeys(p, rs[..i])
      invariant forall k :: k in values ==> values[k] == Seen(rs[..i], k)
    {
      SeenSnoc(p, rs, i);
      hide Seen, ExportedKeys, InOrder;
      KeysExportable(p, rs[..i]);
      values := AddValues(p, rs[i], values);
    }
    assert rs[..|rs|] == rs;
  }

  lemma KeysExportable(p: Profile, rs: seq<Requirement>)
    ensures forall k :: k in ExportedKeys(p, rs) ==> Exportable(p, k)
  {
  }

  lemma SeenSnoc(p: Profile, rs: seq<Requirement>, i: nat)
    requires i < |rs|
    ensures ExportedKeys(p, rs[..i + 1]) == ExportedKeys(p, rs[..i]) + set k | k in rs[i].attributes && Exportable(p, k)
    ensures forall k :: Seen(rs[..i + 1], k) == Seen(rs[..i], k) + if k in rs[i].attributes then {rs[i].attributes[k]}
            else {}
    ensures forall k :: Exportable(p, k) && k !in ExportedKeys(p, rs[..i]) ==> Seen(rs[..i], k) == {}
  {
    hide Exportable;
    assert rs[..i + 1] == rs[..i] + [rs[i]];
  }

  lemma LayerStep(p: Profile, rs: seq<Requirement>, keys: seq<string>, j: nat)
    requires j < |keys|
    ensures Defs(p, rs, keys[..j + 1]) == Defs(p, rs, keys[..j]) + [DefOf(p, rs, keys[j])]
    ensures Types(p, rs, keys[..j + 1])
            == Types(p, rs, keys[..j])
               + if Enumerated(p, rs, keys[j])
                 then [EnumType(EnumTypeId(keys[j]), EnumValues(keys[j], p.vocabulary(keys[j]).value))]
                 else []
  {
    assert keys[..j + 1][..j] == keys[..j];
    hide EnumValues, EnumTypeId, DefOf;
  }

  /** `type_layer`. */
  method BuildLayer(p: Profile, rs: seq<Requirement>) returns (layer: TypeLayer)
    ensures layer == LayerOf(p, rs)
  {
    var seen := ValuesByKey(p, rs);
    var dataTypes := [StringType(StringTypeId())];
    var defs := [TextDef()];
    var attributes: map<string, AttrBinding> := map[];
    var keys := InOrder(seen.Keys);
    hide ExportedKeys, Seen, InOrder, StrictlySorted, DefId, EnumTypeId, EnumValues, ValueIds, TextDef, StringTypeId;
    assert keys[..0] == [];
    for j := 0 to |keys|
      invariant dataTypes == Types(p, rs, keys[..j]) && defs == Defs(p, rs, keys[..j])
      invariant attributes.Keys == set k | k in keys[..j]
      invariant forall k :: k in attributes ==> attributes[k] == BindingOf(p, rs, k)
    {
      var key := keys[j];
      assert key in keys && keys[..j + 1] == keys[..j] + [key];
      LayerStep(p, rs, keys, j);
      hide Types, Defs;
      var vocabulary := p.vocabulary(key);
      assert seen[key] == Seen(rs, key);
      if vocabulary.Some? && forall v :: v in seen[key] ==> v in vocabulary.value {
        dataTypes := dataTypes + [EnumType(EnumTypeId(key), EnumValues(key, vocabulary.value))];
        defs := defs + [EnumDef(DefId(key), key, EnumTypeId(key))];
        attributes := attributes[key := EnumBinding(DefId(key), ValueIds(key, vocabulary.value))];
      } else {
        defs := defs + [StringDef(DefId(key), key, StringTypeId())];
        attributes := attributes[key := TextBinding(DefId(key))];
      }
    }
    assert keys[..|keys|] == keys;
    assert attributes == map k | k in ExportedKeys(p, rs) :: BindingOf(p, rs, k);
    layer := TypeLayer(dataTypes, defs, attributes);
  }

  // ---------------------------------------------------------------- objects and relations

  /** The value written for one attribute, if its key is declared and its value has an id. */
  function ValueOf(layer: TypeLayer, key: string, value: string): seq<AttributeValue> {
    if key !in layer.attributes then []
    else
      match layer.attributes[key]
      case TextBinding(def) => [StringValue(def, value)]
      case EnumBinding(def, values) => if value in values then [EnumRef(def, [values[value]])] else []
  }

  function ValuesOf(layer: TypeLayer, attributes: map<string, string>, keys: seq<string>): seq<AttributeValue>
    requires forall k :: k in keys ==> k in attributes
  {
    if keys == [] then []
    else
      var key := keys[|keys| - 1];
      ValuesOf(layer, attributes, keys[..|keys| - 1]) + ValueOf(layer, key, attributes[key])
  }

  function SpecObjectOf(layer: TypeLayer, r: Requirement): SpecObject {
    SpecObject(r.id, r.title,
               [StringValue(TextDefId(), r.text)] + ValuesOf(layer, r.attributes, InOrder(r.attributes.Keys)))
  }

  /** `requirement_to_spec_object`. */
  method ToSpecObject(r: Requirement, layer: TypeLayer) returns (o: SpecObject)
    ensures o == SpecObjectOf(layer, r)
  {
    var values: seq<AttributeValue> := [];
    var keys := InOrder(r.attributes.Keys);
    hide InOrder, StrictlySorted;
    for j := 0 to |keys|
      invariant values == ValuesOf(layer, r.attributes, keys[..j])
    {
      var key := keys[j];
      assert key in keys && keys[..j + 1][..j] == keys[..j];
      if key in layer.attributes {
        match layer.attributes[key] {
          case TextBinding(def) => values := values + [StringValue(def, r.attributes[key])];
          case EnumBinding(def, ids) =>
            if r.attributes[key] in ids { values := values + [EnumRef(def, [ids[r.attributes[key]]])]; }
        }
      }
    }
    assert keys[..|keys|] == keys;
    o := SpecObject(r.id, r.title, [StringValue(TextDefId(), r.text)] + values);
  }

  function RelationTypeId(k: RelationKind): string {
    match k
    case Contains => "ST-CONTAINS"
    case Derives => "ST-DERIVES"
    case Refines => "ST-REFINES"
    case Requires => "ST-REQUIRES"
    case Satisfies => "ST-SATISFIES"
    case Verifies => "ST-VERIFIES"
    case Implements => "ST-IMPLEMENTS"
    case Traces => "ST-TRACES"
    case AllocatedTo => "ST-ALLOCATED-TO"
    case Precedes => "ST-PRECEDES"
  }

  function RelationLongName(k: RelationKind): string {
    match k
    case Contains => "contains"
    case Derives => "derives"
    case Refines => "refines"
    case Requires => "requires"
    case Satisfies => "satisfies"
    case Verifies => "verifies"
    case Implements => "implements"
    case Traces => "traces"
    case AllocatedTo => "allocated_to"
    case Precedes => "precedes"
  }

  function AllKinds(): seq<RelationKind> {
    [Contains, Derives, Refines, Requires, Satisfies, Verifies, Implements, Traces, AllocatedTo, Precedes]
  }

  function RelationTypes(): seq<RelationType> {
    seq(10, i requires 0 <= i < 10 => RelationType(RelationTypeId(AllKinds()[i]), RelationLongName(AllKinds()[i])))
  }

  /** An asserted relation between two requirements of the graph. */
  predicate Carried(ids: set<string>, r: Relation) {
    r.authority.Asserted? && r.source in ids && r.target in ids
  }

  function RelationOf(r: Relation): SpecRelation {
    SpecRelation(r.id, RelationTypeId(r.kind), r.source, r.target)
  }

  function RelationsOf(ids: set<string>, rs: seq<Relation>): seq<SpecRelation> {
    if rs == [] then []
    else RelationsOf(ids, rs[..|rs| - 1]) + if Carried(ids, rs[|rs| - 1]) then [RelationOf(rs[|rs| - 1])] else []
  }

  function ObjectsOf(layer: TypeLayer, rs: seq<Requirement>): seq<SpecObject> {
    seq(|rs|, i requires 0 <= i < |rs| => SpecObjectOf(layer, rs[i]))
  }

  function BundleOf(p: Profile, g: RequirementGraph): Bundle {
    var layer := LayerOf(p, g.requirements);
    Bundle(g.baseline.id, layer, RelationTypes(), ObjectsOf(layer, g.requirements),
           RelationsOf(RequirementIds(g.requirements), g.relations))
  }

  /** `export_bundle`. */
  method ExportBundle(p: Profile, g: RequirementGraph) returns (b: Bundle)
    ensures b == BundleOf(p, g)
  {
    var layer := BuildLayer(p, g.requirements);
    var objects: seq<SpecObject> := [];
    var ids: set<string> := {};
    hide SpecObjectOf, LayerOf, RelationOf;
    for i := 0 to |g.requirements|
      invariant |objects| == i && forall k :: 0 <= k < i ==> objects[k] == SpecObjectOf(layer, g.requirements[k])
      invariant ids == RequirementIds(g.requirements[..i])
    {
      var o := ToSpecObject(g.requirements[i], layer);
      objects := objects + [o];
      assert g.requirements[..i + 1] == g.requirements[..i] + [g.requirements[i]];
      ids := ids + {g.requirements[i].id};
    }
    assert g.requirements[..|g.requirements|] == g.requirements;
    assert objects == ObjectsOf(layer, g.requirements);
    var relations: seq<SpecRelation> := [];
    for i := 0 to |g.relations|
      invariant relations == RelationsOf(ids, g.relations[..i])
    {
      assert g.relations[..i + 1][..i] == g.relations[..i];
      if Carried(ids, g.relations[i]) { relations := relations + [RelationOf(g.relations[i])]; }
    }
    assert g.relations[..|g.relations|] == g.relations;
    b := Bundle(g.baseline.id, layer, RelationTypes(), objects, relations);
  }
}
