/** What a reader finds in the exported ReqIF content: each attribute once, under its own key and
    with its own value, and no identifier used twice. */
module ReqifDecode {
  import opened Ordering
  import opened ReqifExport
  import opened Requirements
  import opened Wrappers

  function FindDef(defs: seq<Definition>, id: string): Option<Definition> {
    if defs == [] then None else if defs[0].id == id then Some(defs[0]) else FindDef(defs[1..], id)
  }

  function FindType(types: seq<DataType>, id: string): Option<DataType> {
    if types == [] then None else if types[0].id == id then Some(types[0]) else FindType(types[1..], id)
  }

  function FindValue(values: seq<EnumValue>, id: string): Option<EnumValue> {
    if values == [] then None else if values[0].id == id then Some(values[0]) else FindValue(values[1..], id)
  }

  /** The attribute name and value a written value stands for, through its declaration. */
  function Decode(layer: TypeLayer, v: AttributeValue): Option<(string, string)> {
    match FindDef(layer.defs, v.definition)
    case None => None
    case Some(StringDef(_, name, _)) => if v.StringValue? then Some((name, v.value)) else None
    case Some(EnumDef(_, name, typeRef)) =>
      if v.StringValue? || |v.values| != 1 then None
      else
        match FindType(layer.dataTypes, typeRef)
        case Some(EnumType(_, values)) =>
          (match FindValue(values, v.values[0])
           case Some(e) => Some((name, e.key))
           case None => None)
        case _ => None
  }

  // ---------------------------------------------------------------- unique identifiers

  predicate UniqueDefs(defs: seq<Definition>) {
    forall i, j :: 0 <= i < j < |defs| ==> defs[i].id != defs[j].id
  }

  predicate UniqueTypes(types: seq<DataType>) {
    forall i, j :: 0 <= i < j < |types| ==> types[i].id != types[j].id
  }

  predicate Distinct(xs: seq<string>) {
    forall i, j :: 0 <= i < j < |xs| ==> xs[i] != xs[j]
  }

  lemma InOrderDistinct(s: set<string>)
    ensures Distinct(InOrder(s))
  {
    var xs := InOrder(s);
    forall i, j | 0 <= i < j < |xs| ensures xs[i] != xs[j] {
      assert StrKey(xs[i]) != StrKey(xs[j]);
    }
  }

  lemma {:induction false} DefAt(p: Profile, rs: seq<Requirement>, keys: seq<string>, i: nat)
    requires i <= |keys|
    ensures |Defs(p, rs, keys)| == |keys| + 1
    ensures Defs(p, rs, keys)[i] == if i == 0 then TextDef() else DefOf(p, rs, keys[i - 1])
    decreases |keys|
  {
    hide DefOf, TextDef;
    if keys != [] { DefAt(p, rs, keys[..|keys| - 1], if i == |keys| then 0 else i); }
  }

  lemma {:induction false} DefsUnique(p: Profile, rs: seq<Requirement>, keys: seq<string>)
    requires Distinct(keys)
    ensures UniqueDefs(Defs(p, rs, keys))
  {
    DefAt(p, rs, keys, 0);
    forall i, j | 0 <= i < j < |Defs(p, rs, keys)| ensures Defs(p, rs, keys)[i].id != Defs(p, rs, keys)[j].id {
      DefAt(p, rs, keys, i);
      DefAt(p, rs, keys, j);
      hide Defs, Enumerated, DefId, TextDefId;
      DefIdsApart(keys[j - 1]);
      if i > 0 && DefId(keys[i - 1]) == DefId(keys[j - 1]) { DefIdInjective(keys[i - 1], keys[j - 1]); }
    }
  }

  lemma {:induction false} FindUniqueDef(defs: seq<Definition>, i: nat)
    requires UniqueDefs(defs) && i < |defs|
    ensures FindDef(defs, defs[i].id) == Some(defs[i])
    decreases |defs|
  {
    if i > 0 {
      assert defs[0].id != defs[i].id;
      FindUniqueDef(defs[1..], i - 1);
    }
  }

  predicate IsTypeOf(p: Profile, rs: seq<Requirement>, k: string, t: DataType) {
    Enumerated(p, rs, k) && t == EnumType(EnumTypeId(k), EnumValues(k, p.vocabulary(k).value))
  }

  /** Every enumeration type is the one declared for a key. */
  lemma {:induction false} TypeFrom(p: Profile, rs: seq<Requirement>, keys: seq<string>, i: nat)
    requires i < |Types(p, rs, keys)|
    ensures var t := Types(p, rs, keys)[i];
            if i == 0 then t == StringType(StringTypeId())
            else exists k :: k in keys && IsTypeOf(p, rs, k, t)
    decreases |keys|
  {
    hide Enumerated, EnumTypeId, EnumValues, StringTypeId;
    if keys != [] {
      var rest, key := keys[..|keys| - 1], keys[|keys| - 1];
      assert key in keys;
      assert |Types(p, rs, rest)| > 0 by { TypesNonEmpty(p, rs, rest); }
      if i < |Types(p, rs, rest)| {
        TypeFrom(p, rs, rest, i);
      } else {
        LayerStep(p, rs, keys, |keys| - 1);
        assert keys[..|keys|] == keys;
        assert IsTypeOf(p, rs, key, Types(p, rs, keys)[i]);
      }
    }
  }

  lemma {:induction false} TypesNonEmpty(p: Profile, rs: seq<Requirement>, keys: seq<string>)
    ensures |Types(p, rs, keys)| > 0
    decreases |keys|
  {
    if keys != [] { TypesNonEmpty(p, rs, keys[..|keys| - 1]); }
  }

  lemma {:induction false} TypeHas(p: Profile, rs: seq<Requirement>, keys: seq<string>, key: string)
    requires key in keys && Enumerated(p, rs, key)
    ensures EnumType(EnumTypeId(key), EnumValues(key, p.vocabulary(key).value)) in Types(p, rs, keys)
    decreases |keys|
  {
    hide Enumerated, EnumTypeId, EnumValues, StringTypeId;
    var rest, last := keys[..|keys| - 1], keys[|keys| - 1];
    assert keys == rest + [last];
    if key in rest { TypeHas(p, rs, rest, key); }
  }

  lemma {:induction false} TypesUnique(p: Profile, rs: seq<Requirement>, keys: seq<string>)
    requires Distinct(keys)
    ensures UniqueTypes(Types(p, rs, keys))
    decreases |keys|
  {
    hide Enumerated, EnumTypeId, EnumValues, StringTypeId;
    if keys != [] {
      var rest, key := keys[..|keys| - 1], keys[|keys| - 1];
      TypesUnique(p, rs, rest);
      var types := Types(p, rs, rest);
      forall i | 0 <= i < |types| ensures types[i].id != EnumTypeId(key) {
        TypeFrom(p, rs, rest, i);
        DefIdsApart(key);
        if i > 0 {
          var k :| k in rest && IsTypeOf(p, rs, k, types[i]);
          if EnumTypeId(k) == EnumTypeId(key) { EnumTypeIdInjective(k, key); }
        }
      }
    }
  }

  lemma {:induction false} FindUniqueType(types: seq<DataType>, t: DataType)
    requires UniqueTypes(types) && t in types
    ensures FindType(types, t.id) == Some(t)
    decreases |types|
  {
    if types[0] != t {
      var i :| 0 <= i < |types| && types[i] == t;
      assert types[0].id != types[i].id;
      assert types[1..][i - 1] == t;
      FindUniqueType(types[1..], t);
    }
  }

  lemma {:induction false} FindEnumValue(key: string, vocab: seq<string>, value: string)
    requires '-' !in key && value in vocab
    ensures FindValue(EnumValues(key, vocab), EnumValueId(key, value))
            == Some(EnumValue(EnumValueId(key, value), value))
    decreases |vocab|
  {
    var values := EnumValues(key, vocab);
    if vocab[0] != value {
      assert values[1..] == EnumValues(key, vocab[1..]);
      if EnumValueId(key, vocab[0]) == EnumValueId(key, value) { EnumValueIdInjective(key, vocab[0], key, value); }
      hide EnumValueId;
      FindEnumValue(key, vocab[1..], value);
    }
  }

  /** No two definitions, and no two data types, share an identifier. */
  lemma IdsNeverClash(p: Profile, rs: seq<Requirement>)
    ensures UniqueDefs(LayerOf(p, rs).defs) && UniqueTypes(LayerOf(p, rs).dataTypes)
  {
    var keys := InOrder(ExportedKeys(p, rs));
    InOrderDistinct(ExportedKeys(p, rs));
    DefsUnique(p, rs, keys);
    TypesUnique(p, rs, keys);
  }

  /** Nor do two values of any two enumerations, when no vocabulary repeats a word. */
  lemma EnumValuesNeverClash(p: Profile, rs: seq<Requirement>, a: DataType, b: DataType, i: nat, j: nat)
    requires forall k :: p.vocabulary(k).Some? ==> Distinct(p.vocabulary(k).value)
    requires a in LayerOf(p, rs).dataTypes && b in LayerOf(p, rs).dataTypes && a.EnumType? && b.EnumType?
    requires i < |a.values| && j < |b.values| && a.values[i].id == b.values[j].id
    ensures a == b && i == j
  {
    var k := KeyOf(p, rs, a);
    var l := KeyOf(p, rs, b);
    ExportableNoDash(p, k);
    ExportableNoDash(p, l);
    hide LayerOf, Exportable, EnumTypeId, Enumerated, EnumValueId;
    EnumValueIdInjective(k, p.vocabulary(k).value[i], l, p.vocabulary(l).value[j]);
  }

  lemma KeyOf(p: Profile, rs: seq<Requirement>, t: DataType) returns (k: string)
    requires t in LayerOf(p, rs).dataTypes && t.EnumType?
    ensures Exportable(p, k) && k in ExportedKeys(p, rs) && Enumerated(p, rs, k)
    ensures t == EnumType(EnumTypeId(k), EnumValues(k, p.vocabulary(k).value))
  {
    var keys := InOrder(ExportedKeys(p, rs));
    var types := Types(p, rs, keys);
    var i :| 0 <= i < |types| && types[i] == t;
    TypeFrom(p, rs, keys, i);
    hide EnumTypeId, EnumValues, Enumerated, Exportable, Types;
    k :| k in keys && IsTypeOf(p, rs, k, t);
    KeysExportable(p, rs);
  }

  // ---------------------------------------------------------------- each attribute once

  /** The keys of a requirement that are exported, in order. */
  function OwnKeys(p: Profile, r: Requirement): seq<string> {
    InOrder(set k | k in r.attributes && Exportable(p, k))
  }

  lemma DefinitionOf(p: Profile, rs: seq<Requirement>, key: string)
    requires key in ExportedKeys(p, rs)
    ensures FindDef(LayerOf(p, rs).defs, DefId(key)) == Some(DefOf(p, rs, key))
  {
    IdsNeverClash(p, rs);
    var keys := InOrder(ExportedKeys(p, rs));
    var i :| 0 <= i < |keys| && keys[i] == key;
    DefAt(p, rs, keys, i + 1);
    hide Defs, Types, Enumerated, DefId;
    FindUniqueDef(LayerOf(p, rs).defs, i + 1);
  }

  /** A declared attribute is written as one value that decodes to its key and value: the
      enumeration lookup never misses. */
  lemma AttributeDecodes(p: Profile, rs: seq<Requirement>, r: Requirement, key: string)
    requires r in rs && key in r.attributes && Exportable(p, key)
    ensures var layer := LayerOf(p, rs);
            var written := ValueOf(layer, key, r.attributes[key]);
            |written| == 1 && Decode(layer, written[0]) == Some((key, r.attributes[key]))
  {
    assert key in ExportedKeys(p, rs);
    hide *;
    DefinitionOf(p, rs, key);
    Declared(p, rs, key);
    if Enumerated(p, rs, key) {
      EnumFound(p, rs, r, key);
      EnumDecodes(LayerOf(p, rs), key, r.attributes[key], p.vocabulary(key).value);
    } else {
      TextDecodesBy(LayerOf(p, rs), key, r.attributes[key]);
    }
  }

  /** Some requirement has the attribute, and it can be exported. */
  ghost predicate Occurs(p: Profile, rs: seq<Requirement>, key: string) {
    Exportable(p, key) && exists r :: r in rs && key in r.attributes
  }

  /** The profile has a vocabulary for the key, and no requirement departs from it. */
  ghost predicate Closed(p: Profile, rs: seq<Requirement>, key: string) {
    p.vocabulary(key).Some?
      && forall r :: r in rs && key in r.attributes ==> r.attributes[key] in p.vocabulary(key).value
  }

  /** An enumeration of exactly these words, in order. */
  predicate Lists(t: Option<DataType>, words: seq<string>) {
    t.Some? && t.value.EnumType? && |t.value.values| == |words|
    && forall i :: 0 <= i < |words| ==> t.value.values[i].key == words[i]
  }

  /** A key is declared exactly when it occurs, under its own name; as an enumeration of its vocabulary when
      all its values are in it, and as a string otherwise. */
  lemma DeclaredExactly(p: Profile, rs: seq<Requirement>, key: string)
    ensures var layer := LayerOf(p, rs);
            && (key in layer.attributes <==> Occurs(p, rs, key))
            && (key in layer.attributes ==>
                  var d := FindDef(layer.defs, layer.attributes[key].def);
                  && d.Some? && d.value.longName == key
                  && (if Closed(p, rs, key)
                      then layer.attributes[key].EnumBinding? && d.value.EnumDef?
                           && Lists(FindType(layer.dataTypes, d.value.typeRef), p.vocabulary(key).value)
                      else layer.attributes[key].TextBinding? && d.value.StringDef?))
  {
    assert key in LayerOf(p, rs).attributes <==> key in ExportedKeys(p, rs);
    assert key in ExportedKeys(p, rs) <==> Occurs(p, rs, key) by { hide Exportable; }
    assert Enumerated(p, rs, key) <==> Closed(p, rs, key) by { EnumeratedClosed(p, rs, key); }
    hide LayerOf, ExportedKeys, Occurs, Closed, Enumerated, Exportable, DefId, EnumTypeId, StringTypeId, FindDef,
      FindType;
    if key in LayerOf(p, rs).attributes {
      DefinitionOf(p, rs, key);
      Declared(p, rs, key);
      if Enumerated(p, rs, key) { TypeFound(p, rs, key); }
    }
  }

  lemma EnumeratedClosed(p: Profile, rs: seq<Requirement>, key: string)
    ensures Enumerated(p, rs, key) <==> Closed(p, rs, key)
  {
    if p.vocabulary(key).Some? && Enumerated(p, rs, key) {
      forall r | r in rs && key in r.attributes ensures r.attributes[key] in p.vocabulary(key).value {
        assert r.attributes[key] in Seen(rs, key);
      }
    }
  }

  lemma TypeFound(p: Profile, rs: seq<Requirement>, key: string)
    requires key in ExportedKeys(p, rs) && Enumerated(p, rs, key)
    ensures Lists(FindType(LayerOf(p, rs).dataTypes, EnumTypeId(key)), p.vocabulary(key).value)
  {
    var t := EnumType(EnumTypeId(key), EnumValues(key, p.vocabulary(key).value));
    hide EnumTypeId, EnumValueId, Types, Defs, FindType, Exportable, Enumerated;
    TypeHas(p, rs, InOrder(ExportedKeys(p, rs)), key);
    IdsNeverClash(p, rs);
    FindUniqueType(LayerOf(p, rs).dataTypes, t);
  }

  lemma TextDecodesBy(layer: TypeLayer, key: string, value: string)
    requires key in layer.attributes && layer.attributes[key] == TextBinding(DefId(key))
    requires FindDef(layer.defs, DefId(key)) == Some(StringDef(DefId(key), key, StringTypeId()))
    ensures var written := ValueOf(layer, key, value); |written| == 1 && Decode(layer, written[0]) == Some((key, value))
  {
    hide FindDef, DefId, StringTypeId;
  }

  lemma EnumDecodes(layer: TypeLayer, key: string, value: string, vocab: seq<string>)
    requires value in vocab
    requires key in layer.attributes && layer.attributes[key] == EnumBinding(DefId(key), ValueIds(key, vocab))
    requires FindDef(layer.defs, DefId(key)) == Some(EnumDef(DefId(key), key, EnumTypeId(key)))
    requires FindType(layer.dataTypes, EnumTypeId(key)) == Some(EnumType(EnumTypeId(key), EnumValues(key, vocab)))
    requires FindValue(EnumValues(key, vocab), EnumValueId(key, value))
             == Some(EnumValue(EnumValueId(key, value), value))
    ensures var written := ValueOf(layer, key, value); |written| == 1 && Decode(layer, written[0]) == Some((key, value))
  {
    hide FindDef, FindType, FindValue, DefId, EnumTypeId, EnumValueId, EnumValues;
  }

  lemma Declared(p: Profile, rs: seq<Requirement>, key: string)
    requires key in ExportedKeys(p, rs)
    ensures key in LayerOf(p, rs).attributes && LayerOf(p, rs).attributes[key] == BindingOf(p, rs, key)
  {
    hide BindingOf, ExportedKeys, Defs, Types, InOrder;
  }

  lemma EnumFound(p: Profile, rs: seq<Requirement>, r: Requirement, key: string)
    requires r in rs && key in r.attributes && Exportable(p, key) && Enumerated(p, rs, key)
    ensures var value := r.attributes[key];
            var t := EnumType(EnumTypeId(key), EnumValues(key, p.vocabulary(key).value));
            && value in p.vocabulary(key).value
            && FindType(LayerOf(p, rs).dataTypes, EnumTypeId(key)) == Some(t)
            && FindValue(t.values, EnumValueId(key, value)) == Some(EnumValue(EnumValueId(key, value), value))
  {
    var t := EnumType(EnumTypeId(key), EnumValues(key, p.vocabulary(key).value));
    ExportableNoDash(p, key);
    assert r.attributes[key] in Seen(rs, key);
    assert key in ExportedKeys(p, rs);
    hide EnumTypeId, EnumValues, EnumValueId, Types, Defs, FindType, FindValue, Exportable;
    TypeHas(p, rs, InOrder(ExportedKeys(p, rs)), key);
    IdsNeverClash(p, rs);
    FindUniqueType(LayerOf(p, rs).dataTypes, t);
    FindEnumValue(key, p.vocabulary(key).value, r.attributes[key]);
  }

  lemma TextDecodes(p: Profile, rs: seq<Requirement>, text: string)
    ensures Decode(LayerOf(p, rs), StringValue(TextDefId(), text)) == Some((TextName(), text))
  {
    IdsNeverClash(p, rs);
    var keys := InOrder(ExportedKeys(p, rs));
    DefAt(p, rs, keys, 0);
    hide Defs, Types, TextDefId;
    FindUniqueDef(LayerOf(p, rs).defs, 0);
  }

  function OnlyExportable(p: Profile, keys: seq<string>): seq<string> {
    if keys == [] then []
    else OnlyExportable(p, keys[..|keys| - 1]) + if Exportable(p, keys[|keys| - 1]) then [keys[|keys| - 1]] else []
  }

  lemma {:induction false} OnlyExportableMembers(p: Profile, keys: seq<string>)
    ensures forall k :: k in OnlyExportable(p, keys) <==> k in keys && Exportable(p, k)
    decreases |keys|
  {
    hide Exportable;
    if keys != [] {
      var rest, last := keys[..|keys| - 1], keys[|keys| - 1];
      assert keys == rest + [last];
      OnlyExportableMembers(p, rest);
    }
  }

  lemma {:induction false} OnlyExportableSorted(p: Profile, keys: seq<string>)
    requires StrictlySorted(keys, StrKey)
    ensures StrictlySorted(OnlyExportable(p, keys), StrKey)
    decreases |keys|
  {
    hide Exportable, StrKey, Le;
    if keys != [] {
      var rest, last := keys[..|keys| - 1], keys[|keys| - 1];
      OnlyExportableSorted(p, rest);
      OnlyExportableMembers(p, rest);
      var kept := OnlyExportable(p, rest);
      forall i | 0 <= i < |kept| ensures Le(StrKey(kept[i]), StrKey(last)) && StrKey(kept[i]) != StrKey(last) {
        assert kept[i] in kept;
        var j :| 0 <= j < |rest| && rest[j] == kept[i];
        assert keys[j] == kept[i] && keys[|keys| - 1] == last;
      }
    }
  }

  lemma OwnKeysOf(p: Profile, r: Requirement)
    ensures OnlyExportable(p, InOrder(r.attributes.Keys)) == OwnKeys(p, r)
  {
    var keys := InOrder(r.attributes.Keys);
    OnlyExportableMembers(p, keys);
    OnlyExportableSorted(p, keys);
    forall a, b | StrKey(a) == StrKey(b) ensures a == b { FieldDistinguishes(a, b); }
    hide Exportable, StrKey;
    StrictlySortedUnique(OnlyExportable(p, keys), OwnKeys(p, r), StrKey);
  }

  /** The values written for some keys: one each for the exportable ones, in order. */
  lemma {:induction false} ValuesDecode(p: Profile, rs: seq<Requirement>, r: Requirement, keys: seq<string>)
    requires r in rs && forall k :: k in keys ==> k in r.attributes
    ensures var layer := LayerOf(p, rs);
            var values, own := ValuesOf(layer, r.attributes, keys), OnlyExportable(p, keys);
            && |values| == |own|
            && forall i :: 0 <= i < |own| ==>
                 own[i] in r.attributes && Decode(layer, values[i]) == Some((own[i], r.attributes[own[i]]))
    decreases |keys|
  {
    hide Exportable, Decode, LayerOf;
    if keys != [] {
      var rest, last := keys[..|keys| - 1], keys[|keys| - 1];
      assert last in keys;
      ValuesDecode(p, rs, r, rest);
      if Exportable(p, last) {
        AttributeDecodes(p, rs, r, last);
      } else {
        Undeclared(p, rs, last);
      }
    }
  }

  lemma Undeclared(p: Profile, rs: seq<Requirement>, key: string)
    requires !Exportable(p, key)
    ensures key !in LayerOf(p, rs).attributes
  {
    hide Exportable;
  }

  /** A requirement is written as its id, its title, its text, and each exportable attribute exactly
      once, in the order of the keys, decoding to that key and value. */
  lemma EveryAttributeOnce(p: Profile, rs: seq<Requirement>, r: Requirement)
    requires r in rs
    ensures var layer, own := LayerOf(p, rs), OwnKeys(p, r);
            var o := SpecObjectOf(layer, r);
            && o.id == r.id && o.longName == r.title && |o.values| == 1 + |own|
            && Decode(layer, o.values[0]) == Some((TextName(), r.text))
            && forall i :: 0 <= i < |own| ==>
                 own[i] in r.attributes && Decode(layer, o.values[i + 1]) == Some((own[i], r.attributes[own[i]]))
  {
    TextDecodes(p, rs, r.text);
    OwnKeysOf(p, r);
    hide Decode, LayerOf, Exportable, OwnKeys, TextDefId, ValuesOf, OnlyExportable, InOrder, StrictlySorted;
    ValuesDecode(p, rs, r, InOrder(r.attributes.Keys));
    SpecObjectParts(LayerOf(p, rs), r);
  }

  lemma SpecObjectParts(layer: TypeLayer, r: Requirement)
    ensures var o, values := SpecObjectOf(layer, r), ValuesOf(layer, r.attributes, InOrder(r.attributes.Keys));
            && o.id == r.id && o.longName == r.title && |o.values| == 1 + |values|
            && o.values[0] == StringValue(TextDefId(), r.text)
            && forall i :: 0 <= i < |values| ==> o.values[i + 1] == values[i]
  {
    hide ValuesOf, TextDefId, InOrder;
  }
}
