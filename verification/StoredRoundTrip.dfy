/** Rebuilding a stored baseline gives back the graph it was stored from. */
module StoredRoundTrip {
  import opened ModelServer
  import opened Ordering
  import opened Requirements
  import opened StoredBaseline
  import opened SyncEngine
  import opened Wrappers

  /** The element holds this requirement's owned fields. */
  ghost predicate Stores(c: Codec, g: RequirementGraph, r: Requirement, e: Element) {
    && Identifier(e.fields) == Some(RequirementIdentifier(g.baseline.id, r.id))
    && (forall f :: FieldValue(c, g, r, f).Some? ==> Holds(e, f, FieldValue(c, g, r, f).value))
  }

  predicate Holds(e: Element, f: FieldName, v: Json) {
    NameOf(f) in e.fields && e.fields[NameOf(f)] == v
  }

  /** Among any elements, those under the baseline's prefix are one for each requirement. */
  ghost predicate HoldsBaseline(c: Codec, g: RequirementGraph, elements: seq<Element>) {
    var managed := ManagedOf(elements, BaselinePrefix(g.baseline.id));
    && (forall i :: 0 <= i < |managed| ==> StoresSome(c, g, managed[i].0))
    && (forall r :: r in g.requirements ==> StoredIn(c, g, r, managed))
    && (forall i, j :: 0 <= i < j < |managed| ==> managed[i].1 != managed[j].1)
  }

  ghost predicate StoresSome(c: Codec, g: RequirementGraph, e: Element) {
    exists r :: r in g.requirements && Stores(c, g, r, e)
  }

  ghost predicate StoredIn(c: Codec, g: RequirementGraph, r: Requirement, managed: seq<(Element, string)>) {
    exists i :: 0 <= i < |managed| && Stores(c, g, r, managed[i].0)
  }

  // ---------------------------------------------------------------- one requirement

  /** A relation as it comes back: its source requirement's provenance, and no promotion. */
  function Back(r: Requirement, x: Relation): Relation {
    Relation(x.id, r.id, x.target, x.kind, Asserted, r.provenance, None)
  }

  function BackAll(r: Requirement, xs: seq<Relation>): seq<Relation> {
    seq(|xs|, i requires 0 <= i < |xs| => Back(r, xs[i]))
  }

  /** The relations the stored requirement gives back. */
  function RelationsBack(g: RequirementGraph, r: Requirement): seq<Relation> {
    BackAll(r, Sort(Outgoing(g.relations, r.id), RelationKey))
  }

  lemma {:induction false} ListReadsBack<T>(xs: seq<T>, to: T -> Json, from: Json -> Option<T>)
    requires forall x :: x in xs ==> from(to(x)) == Some(x)
    ensures DecodeList(StoreAll(xs, to), from) == Some(xs)
    decreases |xs|
  {
    if xs != [] {
      var rest, last := xs[..|xs| - 1], xs[|xs| - 1];
      assert StoreAll(xs, to)[..|xs| - 1] == StoreAll(rest, to);
      ListReadsBack(rest, to, from);
      assert last in xs && xs == rest + [last];
    }
  }

  lemma JsonKeysApart()
    ensures IdKey() != KindKey() && IdKey() != TargetKey() && KindKey() != TargetKey()
  {
    assert |IdKey()| == 2 && |KindKey()| == 4 && |TargetKey()| == 6;
  }

  lemma RelationReadsBack(c: Codec, x: Relation)
    requires Faithful(c)
    ensures DecodeRelation(c, StoreRelation(c, x)) == Some(StoredRelation(x.id, x.kind, x.target))
  {
    JsonKeysApart();
    hide IdKey, KindKey, TargetKey;
  }

  function StoredOf(xs: seq<Relation>): seq<StoredRelation> {
    seq(|xs|, i requires 0 <= i < |xs| => StoredRelation(xs[i].id, xs[i].kind, xs[i].target))
  }

  lemma {:induction false} RelationsReadBack(c: Codec, xs: seq<Relation>)
    requires Faithful(c)
    ensures DecodeRelationList(c, StoreRelations(c, xs)) == Some(StoredOf(xs))
    decreases |xs|
  {
    hide Faithful, DecodeRelation, StoreRelation;
    if xs != [] {
      var rest, last := xs[..|xs| - 1], xs[|xs| - 1];
      var items := StoreRelations(c, xs);
      assert |items| == |xs| && items[..|xs| - 1] == StoreRelations(c, rest)
        && items[|xs| - 1] == StoreRelation(c, last);
      RelationsReadBack(c, rest);
      RelationReadsBack(c, last);
      assert DecodeRelationList(c, items) == Some(StoredOf(rest) + [StoredRelation(last.id, last.kind, last.target)]);
      assert StoredOf(xs) == StoredOf(rest) + [StoredRelation(last.id, last.kind, last.target)];
    } else {
      assert StoreRelations(c, xs) == [] && StoredOf(xs) == [];
    }
  }

  lemma AttributesReadBack(attributes: map<string, string>)
    ensures DecodeAttributes(StoreAttributes(attributes)) == Some(attributes)
  {
    var j := StoreAttributes(attributes);
    assert (map k | k in j.members :: j.members[k].s) == attributes;
  }

  lemma TextReadsBack(text: string)
    ensures DecodeText(Arr([Str(text)])) == Some(text)
  {
    var items := [Str(text)];
    assert items[..0] == [];
    assert DecodeList(items[..0], DecodeString) == Some([]);
    assert DecodeList(items, DecodeString) == Some([] + [text]);
  }

  /** What the stored fields decode to. */
  lemma FieldsReadBack(c: Codec, g: RequirementGraph, r: Requirement)
    requires Faithful(c)
    ensures c.provFrom(FieldValue(c, g, r, ProvenanceField).value) == Some(r.provenance)
    ensures DecodeAttributes(FieldValue(c, g, r, AttributesField).value) == Some(r.attributes)
    ensures DecodeArray(FieldValue(c, g, r, EvidenceField).value, c.evidenceFrom) == Some(r.evidence)
    ensures DecodeRelations(c, FieldValue(c, g, r, RelationsField).value)
            == Some(StoredOf(Sort(Outgoing(g.relations, r.id), RelationKey)))
    ensures DecodeText(FieldValue(c, g, r, TextField).value) == Some(r.text)
  {
    ListReadsBack(r.evidence, c.evidenceTo, c.evidenceFrom);
    RelationsReadBack(c, Sort(Outgoing(g.relations, r.id), RelationKey));
    AttributesReadBack(r.attributes);
    TextReadsBack(r.text);
    hide DecodeAttributes, StoreAttributes, DecodeList, StoreAll, DecodeRelationList, StoreRelations, DecodeText, Sort,
      Outgoing;
  }

  lemma StoredHolds(c: Codec, g: RequirementGraph, r: Requirement, e: Element)
    requires Stores(c, g, r, e)
    ensures Holds(e, NameField, FieldValue(c, g, r, NameField).value)
    ensures Holds(e, TextField, FieldValue(c, g, r, TextField).value)
    ensures Holds(e, ProvenanceField, FieldValue(c, g, r, ProvenanceField).value)
    ensures Holds(e, AttributesField, FieldValue(c, g, r, AttributesField).value)
    ensures Holds(e, EvidenceField, FieldValue(c, g, r, EvidenceField).value)
    ensures Holds(e, RelationsField, FieldValue(c, g, r, RelationsField).value)
  {
    hide Holds, NameOf;
  }

  lemma RequirementReadsBack(c: Codec, g: RequirementGraph, baseline: BaselineIdentity, r: Requirement, e: Element,
                             identifier: string)
    requires Faithful(c) && Stores(c, g, r, e)
    ensures ReadOne(c, baseline, e, identifier, r.id) == Ok((r.(baseline := baseline), RelationsBack(g, r)))
  {
    FieldsReadBack(c, g, r);
    StoredHolds(c, g, r, e);
    hide Stores, Faithful, DecodeAttributes, DecodeArray, DecodeRelations, DecodeText, Sort, Outgoing, StoreAttributes,
      StoreAll, StoreRelations, NameOf;
    assert FieldValue(c, g, r, NameField) == Some(Str(r.title));
    hide FieldValue;
    var xs := Sort(Outgoing(g.relations, r.id), RelationKey);
    assert RelationsFrom(r.id, r.provenance, StoredOf(xs)) == BackAll(r, xs);
  }

  // ---------------------------------------------------------------- the whole baseline

  /** A requirement as it comes back: with the baseline it was read under. */
  function Under(baseline: BaselineIdentity, r: Requirement): Requirement {
    r.(baseline := baseline)
  }

  function AllUnder(baseline: BaselineIdentity, rs: seq<Requirement>): seq<Requirement> {
    seq(|rs|, i requires 0 <= i < |rs| => Under(baseline, rs[i]))
  }

  /** The relations of some requirements, as they come back. */
  function AllBack(g: RequirementGraph, rs: seq<Requirement>): seq<Relation> {
    if rs == [] then [] else AllBack(g, rs[..|rs| - 1]) + RelationsBack(g, rs[|rs| - 1])
  }

  lemma {:induction false} ManagedIdentifiers(elements: seq<Element>, prefix: string)
    ensures forall m :: m in ManagedOf(elements, prefix) ==> Identifier(m.0.fields) == Some(m.1) && prefix <= m.1
    decreases |elements|
  {
    hide Identifier;
    if elements != [] { ManagedIdentifiers(elements[..|elements| - 1], prefix); }
  }

  lemma IdReadsBack(baseline: string, id: string)
    ensures IdWithin(RequirementIdentifier(baseline, id), BaselinePrefix(baseline)) == id
  {
    hide Escape, Unescape, BaselinePrefix;
    var i, p := RequirementIdentifier(baseline, id), BaselinePrefix(baseline);
    assert i[|p|..] == Escape(id);
    UnescapeEscape(id);
  }

  /** The requirements the elements hold, one each. */
  ghost predicate Pairing(c: Codec, g: RequirementGraph, managed: seq<(Element, string)>, rs: seq<Requirement>) {
    && |rs| == |managed|
    && forall i :: 0 <= i < |rs| ==>
         && rs[i] in g.requirements && Stores(c, g, rs[i], managed[i].0)
         && managed[i].1 == RequirementIdentifier(g.baseline.id, rs[i].id)
  }

  lemma {:induction false} ReadsAll(c: Codec, g: RequirementGraph, baseline: BaselineIdentity,
                                    managed: seq<(Element, string)>, rs: seq<Requirement>)
    requires Faithful(c) && Pairing(c, g, managed, rs)
    ensures ReadManaged(c, baseline, BaselinePrefix(g.baseline.id), managed)
            == Ok((AllUnder(baseline, rs), AllBack(g, rs)))
    decreases |rs|
  {
    hide Stores, Faithful, ReadOne, IdWithin, RelationsBack, RequirementIdentifier, BaselinePrefix;
    if rs != [] {
      var n := |rs| - 1;
      ReadsAll(c, g, baseline, managed[..n], rs[..n]);
      RequirementReadsBack(c, g, baseline, rs[n], managed[n].0, managed[n].1);
      IdReadsBack(g.baseline.id, rs[n].id);
      assert AllUnder(baseline, rs) == AllUnder(baseline, rs[..n]) + [Under(baseline, rs[n])];
    } else {
      assert AllUnder(baseline, rs) == [];
    }
  }

  lemma {:induction false} Pair(c: Codec, g: RequirementGraph, managed: seq<(Element, string)>)
    returns (rs: seq<Requirement>)
    requires forall i :: 0 <= i < |managed| ==> StoresSome(c, g, managed[i].0)
    requires forall m :: m in managed ==> Identifier(m.0.fields) == Some(m.1)
    ensures Pairing(c, g, managed, rs)
    decreases |managed|
  {
    hide Identifier, FieldValue, RequirementIdentifier, Holds, NameOf;
    rs := [];
    if managed != [] {
      var n := |managed| - 1;
      assert forall m :: m in managed[..n] ==> m in managed;
      var before := Pair(c, g, managed[..n]);
      assert StoresSome(c, g, managed[n].0) && managed[n] in managed;
      var r :| r in g.requirements && Stores(c, g, r, managed[n].0);
      rs := before + [r];
      forall i | 0 <= i < |rs| ensures rs[i] in g.requirements && Stores(c, g, rs[i], managed[i].0)
          && managed[i].1 == RequirementIdentifier(g.baseline.id, rs[i].id)
      {
        if i < n { assert managed[..n][i] == managed[i]; }
      }
    }
  }

  predicate Distinct<T(==)>(xs: seq<T>) {
    forall i, j :: 0 <= i < j < |xs| ==> xs[i] != xs[j]
  }

  /** Two lists without repetitions and with the same members are permutations of each other. */
  lemma {:induction false} SameMembersPermute<T>(xs: seq<T>, ys: seq<T>)
    requires Distinct(xs) && Distinct(ys) && forall x :: x in xs <==> x in ys
    ensures multiset(xs) == multiset(ys)
  {
    DistinctCounts(xs);
    DistinctCounts(ys);
    forall x ensures multiset(xs)[x] == multiset(ys)[x] {
      assert x in multiset(xs) <==> x in xs;
      assert x in multiset(ys) <==> x in ys;
    }
  }

  lemma {:induction false} DistinctCounts<T>(xs: seq<T>)
    requires Distinct(xs)
    ensures forall x :: x in xs ==> multiset(xs)[x] == 1
    decreases |xs|
  {
    if xs != [] {
      var rest, last := xs[..|xs| - 1], xs[|xs| - 1];
      assert xs == rest + [last];
      DistinctCounts(rest);
      assert last !in rest;
    }
  }

  /** Reordering the requirements reorders the relations. */
  lemma {:induction false} AllBackPermutes(g: RequirementGraph, xs: seq<Requirement>, ys: seq<Requirement>)
    requires multiset(xs) == multiset(ys)
    ensures multiset(AllBack(g, xs)) == multiset(AllBack(g, ys))
    decreases |xs|
  {
    if xs == [] {
      assert |multiset(ys)| == 0;
    } else {
      var n, last := |xs| - 1, xs[|xs| - 1];
      assert last in multiset(xs);
      var j :| 0 <= j < |ys| && ys[j] == last;
      hide AllBack, RelationsBack;
      TakeOut(xs, n);
      TakeOut(ys, j);
      AllBackPermutes(g, xs[..n] + xs[n + 1..], ys[..j] + ys[j + 1..]);
      AllBackTakeOut(g, xs, n);
      AllBackTakeOut(g, ys, j);
    }
  }

  lemma TakeOut<T>(xs: seq<T>, j: nat)
    requires j < |xs|
    ensures multiset(xs[..j] + xs[j + 1..]) == multiset(xs) - multiset{xs[j]} && |xs[..j] + xs[j + 1..]| == |xs| - 1
  {
    assert xs == xs[..j] + [xs[j]] + xs[j + 1..];
  }

  lemma {:induction false} AllBackTakeOut(g: RequirementGraph, ys: seq<Requirement>, j: nat)
    requires j < |ys|
    ensures multiset(AllBack(g, ys)) == multiset(AllBack(g, ys[..j] + ys[j + 1..])) + multiset(RelationsBack(g, ys[j]))
    decreases |ys|
  {
    var n := |ys| - 1;
    assert AllBack(g, ys) == AllBack(g, ys[..n]) + RelationsBack(g, ys[n]);
    if j == n {
      assert ys[..j] + ys[j + 1..] == ys[..n];
    } else {
      var others, fewer := ys[..j] + ys[j + 1..], ys[..n][..j] + ys[..n][j + 1..];
      assert others == fewer + [ys[n]];
      AllBackSnoc(g, fewer, ys[n]);
      hide AllBack, RelationsBack;
      AllBackTakeOut(g, ys[..n], j);
      assert ys[..n][j] == ys[j];
    }
  }

  lemma {:induction false} AllBackSnoc(g: RequirementGraph, rs: seq<Requirement>, r: Requirement)
    ensures AllBack(g, rs + [r]) == AllBack(g, rs) + RelationsBack(g, r)
  {
    hide RelationsBack;
    assert (rs + [r])[..|rs|] == rs;
  }

  lemma UniqueAreDistinct(rs: seq<Requirement>)
    requires UniqueRequirements(rs)
    ensures Distinct(rs)
  {
  }

  lemma SameRequirement(rs: seq<Requirement>, a: Requirement, b: Requirement)
    requires UniqueRequirements(rs) && a in rs && b in rs && a.id == b.id
    ensures a == b
  {
    var i :| 0 <= i < |rs| && rs[i] == a;
    var j :| 0 <= j < |rs| && rs[j] == b;
  }

  /** The requirements the elements hold are those of the graph, each once. */
  lemma PairingPermutes(c: Codec, g: RequirementGraph, managed: seq<(Element, string)>, rs: seq<Requirement>)
    requires UniqueRequirements(g.requirements) && Pairing(c, g, managed, rs)
    requires forall r :: r in g.requirements ==> StoredIn(c, g, r, managed)
    requires forall m :: m in managed ==> Identifier(m.0.fields) == Some(m.1)
    requires forall i, j :: 0 <= i < j < |managed| ==> managed[i].1 != managed[j].1
    ensures Distinct(rs) && multiset(rs) == multiset(g.requirements) && forall r :: r in rs <==> r in g.requirements
  {
    hide FieldValue, RequirementIdentifier, Holds, NameOf, Identifier, UniqueRequirements;
    forall i, j | 0 <= i < j < |rs| ensures rs[i] != rs[j] {
      assert managed[i].1 != managed[j].1;
    }
    forall r | r in g.requirements ensures r in rs {
      var i :| 0 <= i < |managed| && Stores(c, g, r, managed[i].0);
      assert managed[i] in managed;
      IdentifierInjective(g.baseline.id, r.id, rs[i].id);
      SameRequirement(g.requirements, r, rs[i]);
    }
    UniqueAreDistinct(g.requirements);
    SameMembersPermute(rs, g.requirements);
  }

  lemma SortedUnder(baseline: BaselineIdentity, rs: seq<Requirement>, qs: seq<Requirement>)
    requires UniqueRequirements(qs) && Distinct(rs) && forall r :: r in rs <==> r in qs
    ensures Sort(AllUnder(baseline, rs), RequirementKey) == Sort(AllUnder(baseline, qs), RequirementKey)
  {
    UniqueAreDistinct(qs);
    hide UniqueRequirements, Sort;
    UnderKeys(baseline, rs, qs);
    UnderKeys(baseline, qs, qs);
    UnderMembers(baseline, rs, qs);
    UnderMembers(baseline, qs, rs);
    SortIsCanonical(AllUnder(baseline, rs), AllUnder(baseline, qs), RequirementKey);
  }

  lemma UnderMembers(baseline: BaselineIdentity, rs: seq<Requirement>, qs: seq<Requirement>)
    requires forall r :: r in rs <==> r in qs
    ensures forall u :: u in AllUnder(baseline, rs) ==> u in AllUnder(baseline, qs)
  {
    var us, vs := AllUnder(baseline, rs), AllUnder(baseline, qs);
    forall u | u in us ensures u in vs {
      var i :| 0 <= i < |us| && us[i] == u;
      assert rs[i] in qs;
      var j :| 0 <= j < |qs| && qs[j] == rs[i];
      assert vs[j] == u;
    }
  }

  lemma UnderKeys(baseline: BaselineIdentity, rs: seq<Requirement>, qs: seq<Requirement>)
    requires UniqueRequirements(qs) && Distinct(rs) && forall r :: r in rs ==> r in qs
    ensures DistinctKeys(AllUnder(baseline, rs), RequirementKey)
  {
    var us := AllUnder(baseline, rs);
    forall i, j | 0 <= i < j < |us| ensures RequirementKey(us[i]) != RequirementKey(us[j]) {
      if RequirementKey(us[i]) == RequirementKey(us[j]) {
        FieldDistinguishes(us[i].id, us[j].id);
        assert rs[i] in qs && rs[j] in qs;
        SameRequirement(qs, rs[i], rs[j]);
      }
    }
  }

  /** The import digest that is read back: the first one an element under the prefix holds. */
  function DigestHeld(elements: seq<Element>, baseline: string): Option<string> {
    FirstField(ManagedOf(elements, BaselinePrefix(baseline)), NameOf(DigestField))
  }

  /** The baseline fields, when at least one requirement is stored. */
  lemma BaselineReadsBack(c: Codec, g: RequirementGraph, fallback: string, managed: seq<(Element, string)>,
                          rs: seq<Requirement>)
    requires Pairing(c, g, managed, rs) && managed != []
    ensures BaselineOf(g.baseline.id, fallback, managed)
            == g.baseline.(exportedSha256 := None, importSha256 := FirstField(managed, NameOf(DigestField)))
    ensures g.baseline.importSha256.Some? ==> FirstField(managed, NameOf(DigestField)) == g.baseline.importSha256
  {
    assert Stores(c, g, rs[0], managed[0].0);
    assert FieldValue(c, g, rs[0], RevisionField) == Some(Str(g.baseline.revision));
    assert Holds(managed[0].0, RevisionField, Str(g.baseline.revision));
    if g.baseline.importSha256.Some? {
      assert FieldValue(c, g, rs[0], DigestField) == Some(Str(g.baseline.importSha256.value));
      assert Holds(managed[0].0, DigestField, Str(g.baseline.importSha256.value));
    }
    hide FieldValue, NameOf;
  }

  /** Rebuilding from any elements that hold the baseline gives its requirements sorted by id, and
      exactly the asserted relations whose source is one of them, sorted by id and with their source's
      provenance. */
  lemma BaselineRoundTrip(c: Codec, g: RequirementGraph, elements: seq<Element>, fallback: string)
    requires Faithful(c) && UniqueRequirements(g.requirements) && HoldsBaseline(c, g, elements)
    ensures Rebuilt(c, g.baseline.id, fallback, elements).Ok?
    ensures var back := Rebuilt(c, g.baseline.id, fallback, elements).value;
            && (g.requirements != [] ==>
                  back.baseline
                    == g.baseline.(exportedSha256 := None, importSha256 := DigestHeld(elements, g.baseline.id)))
            && (g.requirements != [] && g.baseline.importSha256.Some? ==>
                  back.baseline.importSha256 == g.baseline.importSha256)
            && back.requirements == Sort(AllUnder(back.baseline, g.requirements), RequirementKey)
            && multiset(back.relations) == multiset(AllBack(g, g.requirements)) && Sorted(back.relations, RelationKey)
            && back.evidence == []
  {
    var prefix := BaselinePrefix(g.baseline.id);
    var managed := ManagedOf(elements, prefix);
    ManagedIdentifiers(elements, prefix);
    var rs := Pair(c, g, managed);
    PairingPermutes(c, g, managed, rs);
    var baseline := BaselineOf(g.baseline.id, fallback, managed);
    hide Pairing, HoldsBaseline, Faithful, AllBack, AllUnder, ManagedOf, BaselinePrefix, Sort, BaselineOf;
    ReadsAll(c, g, baseline, managed, rs);
    SortedUnder(baseline, rs, g.requirements);
    AllBackPermutes(g, rs, g.requirements);
    SortSorts(AllBack(g, rs), RelationKey);
    if g.requirements != [] {
      assert g.requirements[0] in rs;
      assert managed != [] by { PairingLength(c, g, managed, rs); }
      BaselineReadsBack(c, g, fallback, managed, rs);
    }
  }

  lemma PairingLength(c: Codec, g: RequirementGraph, managed: seq<(Element, string)>, rs: seq<Requirement>)
    requires Pairing(c, g, managed, rs)
    ensures |rs| == |managed|
  {
    hide Stores;
  }

  // ---------------------------------------------------------------- on the server

  lemma NamesAreOwn(f: FieldName)
    ensures NameOf(f) !in {"@id", "@type", "identifier", "aliasIds"}
  {
  }

  /** The element a server creates for a requirement stores it. */
  lemma CreatedStores(c: Codec, g: RequirementGraph, r: Requirement, id: string)
    ensures Stores(c, g, r, ReadElement(id, CreatePayload(DesiredOf(c, g, r))))
  {
    var d := DesiredOf(c, g, r);
    var e := ReadElement(id, CreatePayload(d));
    hide FieldValue, RequirementIdentifier, ElementType;
    forall f ensures FieldValue(c, g, r, f).Some? ==> Holds(e, f, FieldValue(c, g, r, f).value) {
      NamesAreOwn(f);
      FieldStored(c, g, r, f);
    }
    assert Identifier(e.fields) == Some(d.identifier);
  }

  lemma NoDigestValue(c: Codec, g: RequirementGraph, r: Requirement)
    ensures FieldValue(c, g, r, DigestField).Some? <==> g.baseline.importSha256.Some?
  {
  }

  lemma FieldStored(c: Codec, g: RequirementGraph, r: Requirement, f: FieldName)
    ensures NameOf(f) in Fields(c, g, r) <==> FieldValue(c, g, r, f).Some?
    ensures FieldValue(c, g, r, f).Some? ==> Fields(c, g, r)[NameOf(f)] == FieldValue(c, g, r, f).value
  {
    hide FieldValue;
    forall h | NameOf(h) == NameOf(f) ensures h == f { NameOfInjective(h, f); }
    hide NameOf;
  }

  /** Another baseline's elements are never among the managed ones. */
  lemma OtherBaselinesIgnored(elements: seq<Element>, baseline: string, other: string, requirement: string, e: Element)
    requires baseline != other && Identifier(e.fields) == Some(RequirementIdentifier(other, requirement))
    ensures forall m :: m in ManagedOf(elements, BaselinePrefix(baseline)) ==> m.0 != e
  {
    ManagedIdentifiers(elements, BaselinePrefix(baseline));
    PrefixIsOwn(baseline, other, requirement);
    hide Identifier, ManagedOf;
  }
}
