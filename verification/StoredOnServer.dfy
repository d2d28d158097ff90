/** Storing a baseline on the model server and fetching it back: the mapping of
    `crates/kr0ki-core/src/flexo_reqif_sync.rs` over the managed diff and the commit semantics. */
module StoredOnServer {
  import opened ModelServer
  import opened Ordering
  import opened Reconcile
  import opened Requirements
  import opened StoredBaseline
  import opened StoredRoundTrip
  import opened SyncEngine
  import opened Wrappers

  lemma {:induction false} SameSelection(es: seq<Element>, prefix: string)
    ensures |ManagedOf(es, prefix)| == |Restrict(es, prefix)|
    ensures forall k :: 0 <= k < |ManagedOf(es, prefix)| ==>
              ManagedOf(es, prefix)[k].0 == Restrict(es, prefix)[k]
              && Identifier(Restrict(es, prefix)[k].fields) == Some(ManagedOf(es, prefix)[k].1)
    decreases |es|
  {
    hide Identifier;
    if es != [] { SameSelection(es[..|es| - 1], prefix); }
  }

  /** The server kept the extension fields of the elements under the prefix. */
  ghost predicate KeepsFields(m: Elements, prefix: string) {
    forall i :: i in m && IsManaged(m[i], prefix) ==> KeepsIn(m[i])
  }

  predicate KeepsIn(p: Payload) {
    "identifier" in p
  }

  lemma DesiredFrom(c: Codec, g: RequirementGraph, d: DesiredElement) returns (r: Requirement)
    requires d in DesiredElements(c, g)
    ensures r in g.requirements && d == DesiredOf(c, g, r)
  {
    hide DesiredOf;
    var i :| 0 <= i < |DesiredElements(c, g)| && DesiredElements(c, g)[i] == d;
    r := g.requirements[i];
  }

  lemma DesiredHas(c: Codec, g: RequirementGraph, r: Requirement)
    requires r in g.requirements
    ensures DesiredOf(c, g, r) in DesiredElements(c, g)
  {
    hide DesiredOf;
    var i :| 0 <= i < |g.requirements| && g.requirements[i] == r;
    assert DesiredElements(c, g)[i] == DesiredOf(c, g, r);
  }

  /** A stored payload that agrees with the desired element stores the requirement. */
  lemma AgreesStores(c: Codec, g: RequirementGraph, r: Requirement, id: string, p: Payload)
    requires Identifier(p) == Some(DesiredOf(c, g, r).identifier) && Agrees(p, DesiredOf(c, g, r)) && KeepsIn(p)
    ensures Stores(c, g, r, ReadElement(id, p))
  {
    var d, e := DesiredOf(c, g, r), ReadElement(id, p);
    ReadIdentifier(id, p);
    hide FieldValue, Identifier, RequirementIdentifier, ElementType;
    assert "identifier" in p - {"@id", "@type"};
    forall f ensures FieldValue(c, g, r, f).Some? ==> Holds(e, f, FieldValue(c, g, r, f).value) {
      FieldStored(c, g, r, f);
      NamesAreOwn(f);
      hide NameOf, Fields;
      assert NameOf(f) in d.fields <==> FieldValue(c, g, r, f).Some?;
    }
    hide Fields, NameOf;
  }

  /** When the managed part of a server's elements is the desired set, the baseline is held. */
  lemma MatchesHolds(c: Codec, g: RequirementGraph, m: Elements)
    requires UniqueRequirements(g.requirements)
    requires Matches(m, BaselinePrefix(g.baseline.id), DesiredElements(c, g))
             && KeepsFields(m, BaselinePrefix(g.baseline.id))
    ensures HoldsBaseline(c, g, ElementsOf(m))
  {
    var prefix := BaselinePrefix(g.baseline.id);
    var managed := ManagedOf(ElementsOf(m), prefix);
    SameSelection(ElementsOf(m), prefix);
    UniqueInSeq(m, prefix);
    assert UniqueIdentifiers(Managed(m, prefix));
    forall k | 0 <= k < |managed| ensures StoresSome(c, g, managed[k].0) {
      hide HoldsBaseline, Stores, ElementsOf, ManagedOf, Restrict, DesiredElements, IsManaged, UniqueManaged;
      ManagedAt(m, prefix, k);
      var id := managed[k].0.id;
      var r := ElementStores(c, g, m, id);
      assert Stores(c, g, r, managed[k].0);
    }
    forall r | r in g.requirements ensures StoredIn(c, g, r, managed) {
      hide HoldsBaseline, Stores, ElementsOf, ManagedOf, Restrict;
      var id := RequirementStored(c, g, m, r);
      var k := ManagedHas(m, prefix, id);
      assert Stores(c, g, r, managed[k].0);
    }
    hide Stores, StoresSome, StoredIn, ElementsOf, ManagedOf, Restrict, Identifier, Matches, KeepsFields;
  }

  lemma ElementStores(c: Codec, g: RequirementGraph, m: Elements, id: string) returns (r: Requirement)
    requires Matches(m, BaselinePrefix(g.baseline.id), DesiredElements(c, g))
             && KeepsFields(m, BaselinePrefix(g.baseline.id))
    requires id in m && IsManaged(m[id], BaselinePrefix(g.baseline.id))
    ensures r in g.requirements && Stores(c, g, r, ReadElement(id, m[id]))
    ensures Identifier(m[id]) == Some(RequirementIdentifier(g.baseline.id, r.id))
  {
    hide Identifier, IsManaged, Agrees, HasElement, UniqueManaged, Stores, ReadElement, DesiredElements, BaselinePrefix;
    assert MatchesSome(m[id], DesiredElements(c, g)) && KeepsIn(m[id]);
    hide Matches, KeepsFields, KeepsIn;
    var d :| d in DesiredElements(c, g) && Identifier(m[id]) == Some(d.identifier) && Agrees(m[id], d);
    r := DesiredFrom(c, g, d);
    AgreesStores(c, g, r, id, m[id]);
  }

  lemma RequirementStored(c: Codec, g: RequirementGraph, m: Elements, r: Requirement) returns (id: string)
    requires UniqueRequirements(g.requirements) && r in g.requirements
    requires Matches(m, BaselinePrefix(g.baseline.id), DesiredElements(c, g))
             && KeepsFields(m, BaselinePrefix(g.baseline.id))
    ensures id in m && IsManaged(m[id], BaselinePrefix(g.baseline.id)) && Stores(c, g, r, ReadElement(id, m[id]))
  {
    DesiredHas(c, g, r);
    hide Identifier, Agrees, MatchesSome, UniqueManaged, Stores, ReadElement, DesiredElements, Escape, KeepsFields;
    assert HasElement(m, DesiredOf(c, g, r));
    id :| id in m && Identifier(m[id]) == Some(RequirementIdentifier(g.baseline.id, r.id));
    hide Matches, DesiredOf;
    assert IsManaged(m[id], BaselinePrefix(g.baseline.id));
    var q := ElementStores(c, g, m, id);
    IdentifierInjective(g.baseline.id, q.id, r.id);
    SameRequirement(g.requirements, q, r);
  }

  // ---------------------------------------------------------------- what a commit leaves in the payloads

  lemma CreatedKeeps(c: Codec, g: RequirementGraph, r: Requirement)
    ensures KeepsIn(CreatePayload(DesiredOf(c, g, r)))
  {
    hide FieldValue, Fields, RequirementIdentifier, ElementType, NameOf;
  }

  lemma UpdatedKeeps(c: Codec, g: RequirementGraph, r: Requirement, id: string, p: Payload)
    requires KeepsIn(p)
    ensures KeepsIn(UpdatePayload(ReadElement(id, p), DesiredOf(c, g, r)))
  {
    hide FieldValue, Fields, RequirementIdentifier, ElementType, NameOf;
    assert "identifier" in ReadElement(id, p).fields;
  }

  lemma CommitKeepsFields(c: Codec, g: RequirementGraph, els: Elements, next: nat, changes: seq<DataVersion>)
    requires KeepsFields(els, BaselinePrefix(g.baseline.id))
    requires Diff(Managed(els, BaselinePrefix(g.baseline.id)), DesiredElements(c, g)) == Ok(changes)
    ensures KeepsFields(ApplyAll(els, next, changes).0, BaselinePrefix(g.baseline.id))
  {
    var prefix := BaselinePrefix(g.baseline.id);
    var m := ApplyAll(els, next, changes).0;
    DiffPayloads(Managed(els, prefix), DesiredElements(c, g), changes);
    ManagedMembers(els, prefix);
    hide Diff, Managed, ApplyAll, DesiredElements, BaselinePrefix, IsManaged, ReadElement, KeepsIn, FromDesired;
    forall i | i in m && IsManaged(m[i], prefix) ensures KeepsIn(m[i]) {
      AfterPayload(els, next, changes, i);
      if !(i in els && m[i] == els[i]) {
        var x :| x in changes && x.payload == Some(m[i]);
        WrittenKeeps(c, g, els, Managed(els, prefix), m[i]);
      }
    }
  }

  lemma WrittenKeeps(c: Codec, g: RequirementGraph, els: Elements, existing: seq<Element>, p: Payload)
    requires forall e :: e in existing ==> e.id in els && e == ReadElement(e.id, els[e.id]) && KeepsIn(els[e.id])
    requires FromDesired(existing, DesiredElements(c, g), p)
    ensures KeepsIn(p)
  {
    hide DesiredElements, ReadElement, CreatePayload, UpdatePayload, KeepsIn;
    var d :| d in DesiredElements(c, g) && (p == CreatePayload(d) || UpdatesSome(existing, d, p));
    var r := DesiredFrom(c, g, d);
    CreatedKeeps(c, g, r);
    if p != CreatePayload(d) {
      var e :| e in existing && p == UpdatePayload(e, d);
      UpdatedKeeps(c, g, r, e.id, els[e.id]);
    }
  }

  lemma DesiredWithin(c: Codec, g: RequirementGraph)
    ensures WithinPrefix(DesiredElements(c, g), BaselinePrefix(g.baseline.id))
  {
    forall d | d in DesiredElements(c, g) ensures BaselinePrefix(g.baseline.id) <= d.identifier && OwnsNoReserved(d) {
      var r := DesiredFrom(c, g, d);
      OwnFields(c, g, r);
      hide Escape, Fields;
    }
  }

  lemma OwnFields(c: Codec, g: RequirementGraph, r: Requirement)
    ensures OwnsNoReserved(DesiredOf(c, g, r))
  {
    hide FieldValue, NameOf, RequirementIdentifier, ElementType;
    forall k | k in Fields(c, g, r) ensures k !in {"@id", "@type", "identifier", "aliasIds"} {
      var f :| f in AllFields() && FieldValue(c, g, r, f).Some? && k == NameOf(f);
      NamesAreOwn(f);
    }
  }

  /** Committing the managed diff for a graph and rebuilding from the server's elements gives the
      graph back, whatever else the project holds. The import digest is the graph's own when it has
      one; `DigestReturnsExactly` says what it is otherwise. */
  lemma StoreThenFetch(c: Codec, g: RequirementGraph, els: Elements, next: nat, changes: seq<DataVersion>,
                       fallback: string)
    requires Faithful(c) && UniqueRequirements(g.requirements)
    requires IdsIssued(els, next) && KeepsFields(els, BaselinePrefix(g.baseline.id))
    requires Diff(Managed(els, BaselinePrefix(g.baseline.id)), DesiredElements(c, g)) == Ok(changes)
    ensures var after := ElementsOf(ApplyAll(els, next, changes).0);
            var back := Rebuilt(c, g.baseline.id, fallback, after);
            && back.Ok?
            && (g.requirements != [] ==>
                  && back.value.baseline
                     == g.baseline.(exportedSha256 := None, importSha256 := DigestHeld(after, g.baseline.id))
                  && (g.baseline.importSha256.Some? ==> back.value.baseline.importSha256 == g.baseline.importSha256))
            && back.value.requirements == Sort(AllUnder(back.value.baseline, g.requirements), RequirementKey)
            && multiset(back.value.relations) == multiset(AllBack(g, g.requirements))
            && Sorted(back.value.relations, RelationKey)
  {
    var prefix := BaselinePrefix(g.baseline.id);
    var m := ApplyAll(els, next, changes).0;
    DesiredWithin(c, g);
    WithinSuits(els, BaselinePrefix(g.baseline.id), DesiredElements(c, g));
    hide *;
    CommitReconciles(els, next, prefix, DesiredElements(c, g), changes);
    CommitKeepsFields(c, g, els, next, changes);
    MatchesHolds(c, g, m);
    BaselineRoundTrip(c, g, ElementsOf(m), fallback);
  }

  // ---------------------------------------------------------------- the import digest

  /** A payload whose import digest would be read back. */
  predicate HasDigest(p: Payload) {
    NameOf(DigestField) in p && p[NameOf(DigestField)].Str?
  }

  /** An element stored for one of the graph's requirements holds an import digest. */
  ghost predicate OldDigest(g: RequirementGraph, els: Elements) {
    exists i, r :: DigestAt(g, els, i, r)
  }

  ghost predicate DigestAt(g: RequirementGraph, els: Elements, i: string, r: Requirement) {
    i in els && r in g.requirements && Identifier(els[i]) == Some(RequirementIdentifier(g.baseline.id, r.id))
      && HasDigest(els[i])
  }

  /** The first field found is one an element holds, and is found when an element holds one. */
  lemma {:induction false} FirstFieldOf(managed: seq<(Element, string)>, name: string)
    ensures FirstField(managed, name).None?
            <==> forall x :: x in managed ==> !(name in x.0.fields && x.0.fields[name].Str?)
    ensures FirstField(managed, name).Some? ==>
              exists x :: x in managed && name in x.0.fields && x.0.fields[name] == Str(FirstField(managed, name).value)
    decreases |managed|
  {
    if managed != [] {
      FirstFieldOf(managed[1..], name);
      assert managed == [managed[0]] + managed[1..];
      assert managed[0] in managed;
    }
  }

  lemma ReadDigest(i: string, p: Payload)
    ensures var q := ReadElement(i, p).fields;
            (NameOf(DigestField) in q <==> NameOf(DigestField) in p)
            && (NameOf(DigestField) in p ==> q[NameOf(DigestField)] == p[NameOf(DigestField)])
  {
    NamesAreOwn(DigestField);
    hide NameOf;
  }

  /** The digest held among a server's elements is one a managed element holds. */
  lemma DigestHeldBy(m: Elements, baseline: string)
    ensures var prefix, held := BaselinePrefix(baseline), DigestHeld(ElementsOf(m), baseline);
            && (held.None? <==> forall i :: i in m && IsManaged(m[i], prefix) ==> !HasDigest(m[i]))
            && (held.Some? ==>
                  exists i :: i in m && IsManaged(m[i], prefix) && HasDigest(m[i])
                    && m[i][NameOf(DigestField)] == Str(held.value))
  {
    var prefix := BaselinePrefix(baseline);
    var managed, name := ManagedOf(ElementsOf(m), prefix), NameOf(DigestField);
    SameSelection(ElementsOf(m), prefix);
    FirstFieldOf(managed, name);
    hide ElementsOf, ManagedOf, Restrict, Identifier, IsManaged, ReadElement, BaselinePrefix, NameOf, FirstField;
    forall x | x in managed
      ensures x.0.id in m && IsManaged(m[x.0.id], prefix)
      ensures name in x.0.fields <==> name in m[x.0.id]
      ensures name in x.0.fields ==> x.0.fields[name] == m[x.0.id][name]
    {
      var k :| 0 <= k < |managed| && managed[k] == x;
      ManagedAt(m, prefix, k);
      ReadDigest(x.0.id, m[x.0.id]);
    }
    forall i | i in m && IsManaged(m[i], prefix) && HasDigest(m[i])
      ensures exists x :: x in managed && name in x.0.fields && x.0.fields[name].Str?
    {
      var k := ManagedHas(m, prefix, i);
      ReadDigest(i, m[i]);
      assert managed[k] in managed;
    }
  }

  /** Without a digest of its own, a graph's changes leave every digest as it is and add none. */
  lemma DigestUntouched(c: Codec, g: RequirementGraph, r: Requirement, i: string, p: Payload)
    requires g.baseline.importSha256.None?
    ensures !HasDigest(CreatePayload(DesiredOf(c, g, r)))
    ensures var name, e := NameOf(DigestField), ReadElement(i, p);
            var q := if OwnedFieldDiffers(e.fields, DesiredOf(c, g, r)) then UpdatePayload(e, DesiredOf(c, g, r))
              else p;
            (name in q <==> name in p) && (name in p ==> q[name] == p[name])
  {
    NamesAreOwn(DigestField);
    FieldStored(c, g, r, DigestField);
    NoDigestValue(c, g, r);
    ReadDigest(i, p);
    hide FieldValue, Fields, RequirementIdentifier, ElementType, NameOf, OwnedFieldDiffers;
  }

  /** What `CommitElements` says of a committed state. */
  ghost predicate Brought(els: Elements, desired: seq<DesiredElement>, prefix: string, m: Elements) {
    && (forall i :: i in m && IsManaged(m[i], prefix) ==>
          if i in els then UpdatedBySome(els, desired, i, m[i]) else CreatedBySome(desired, m[i]))
    && (forall i, d :: i in els && d in desired && Identifier(els[i]) == Some(d.identifier) ==>
          i in m && m[i] == Updated(els, ReadElement(i, els[i]), d))
  }

  /** A managed element of the committed state with a digest had the same one before, and is stored
      for a requirement of the graph. */
  ghost predicate HadDigest(g: RequirementGraph, els: Elements, i: string, p: Payload) {
    HasDigest(p) ==>
      && i in els && HasDigest(els[i]) && p[NameOf(DigestField)] == els[i][NameOf(DigestField)]
      && exists r :: DigestAt(g, els, i, r)
  }

  ghost predicate StillHasDigest(g: RequirementGraph, m: Elements, i: string) {
    i in m && IsManaged(m[i], BaselinePrefix(g.baseline.id)) && HasDigest(m[i])
  }

  /** After a commit of a graph without a digest, the elements with a digest are those that had one
      before and are stored for one of its requirements. */
  ghost predicate DigestsKept(g: RequirementGraph, els: Elements, m: Elements) {
    && (forall i :: i in m && IsManaged(m[i], BaselinePrefix(g.baseline.id)) ==> HadDigest(g, els, i, m[i]))
    && (forall i, r :: DigestAt(g, els, i, r) ==> StillHasDigest(g, m, i))
  }

  lemma CommitBrings(els: Elements, next: nat, prefix: string, desired: seq<DesiredElement>, changes: seq<DataVersion>)
    requires IdsIssued(els, next) && SuitsIn(els, prefix, desired) && Diff(Managed(els, prefix), desired) == Ok(changes)
    ensures Brought(els, desired, prefix, ApplyAll(els, next, changes).0)
  {
    CommitElements(els, next, prefix, desired, changes);
    hide Diff, Managed, ApplyAll, IsManaged, ReadElement, Updated, UpdatedBySome, CreatedBySome, IdsIssued,
      SuitsIn, Identifier;
  }

  lemma DigestsAfter(c: Codec, g: RequirementGraph, els: Elements, next: nat, changes: seq<DataVersion>)
    requires g.baseline.importSha256.None? && IdsIssued(els, next)
    requires Diff(Managed(els, BaselinePrefix(g.baseline.id)), DesiredElements(c, g)) == Ok(changes)
    ensures DigestsKept(g, els, ApplyAll(els, next, changes).0)
  {
    DesiredWithin(c, g);
    WithinSuits(els, BaselinePrefix(g.baseline.id), DesiredElements(c, g));
    hide *;
    CommitBrings(els, next, BaselinePrefix(g.baseline.id), DesiredElements(c, g), changes);
    DigestsFrom(c, g, els, ApplyAll(els, next, changes).0);
  }

  lemma DigestsFrom(c: Codec, g: RequirementGraph, els: Elements, m: Elements)
    requires g.baseline.importSha256.None? && Brought(els, DesiredElements(c, g), BaselinePrefix(g.baseline.id), m)
    ensures DigestsKept(g, els, m)
  {
    hide Brought, DesiredElements, IsManaged, BaselinePrefix, HadDigest, StillHasDigest, DigestAt;
    forall i | i in m && IsManaged(m[i], BaselinePrefix(g.baseline.id)) ensures HadDigest(g, els, i, m[i]) {
      DigestCameFrom(c, g, els, m, i);
    }
    forall i, r | DigestAt(g, els, i, r) ensures StillHasDigest(g, m, i) {
      DigestStays(c, g, els, m, i, r);
    }
  }

  lemma DigestCameFrom(c: Codec, g: RequirementGraph, els: Elements, m: Elements, i: string)
    requires g.baseline.importSha256.None? && Brought(els, DesiredElements(c, g), BaselinePrefix(g.baseline.id), m)
    requires i in m && IsManaged(m[i], BaselinePrefix(g.baseline.id))
    ensures HadDigest(g, els, i, m[i])
  {
    hide DesiredElements, Identifier, IsManaged, ReadElement, CreatePayload, UpdatePayload, OwnedFieldDiffers, NameOf,
      BaselinePrefix, RequirementIdentifier;
    var desired := DesiredElements(c, g);
    if i in els {
      assert UpdatedBySome(els, desired, i, m[i]);
      ReadId(i, els[i]);
      var d :| d in desired && Identifier(els[i]) == Some(d.identifier)
        && m[i] == Updated(els, ReadElement(i, els[i]), d);
      hide Brought;
      var r := DesiredFrom(c, g, d);
      DigestUntouched(c, g, r, i, els[i]);
      if HasDigest(m[i]) { assert DigestAt(g, els, i, r); }
    } else {
      assert CreatedBySome(desired, m[i]);
      var d :| d in desired && m[i] == CreatePayload(d);
      hide Brought;
      var r := DesiredFrom(c, g, d);
      DigestUntouched(c, g, r, i, m[i]);
    }
  }

  lemma DigestStays(c: Codec, g: RequirementGraph, els: Elements, m: Elements, i: string, r: Requirement)
    requires g.baseline.importSha256.None? && Brought(els, DesiredElements(c, g), BaselinePrefix(g.baseline.id), m)
    requires DigestAt(g, els, i, r)
    ensures StillHasDigest(g, m, i)
  {
    DesiredHas(c, g, r);
    DesiredIdentifier(c, g, r);
    DigestUpdated(c, g, els, i, r);
    BroughtAt(els, DesiredElements(c, g), BaselinePrefix(g.baseline.id), m, i, DesiredOf(c, g, r));
    hide Brought, Identifier, IsManaged, HasDigest, DesiredElements, DesiredOf, BaselinePrefix, RequirementIdentifier,
      Updated;
  }

  lemma BroughtAt(els: Elements, desired: seq<DesiredElement>, prefix: string, m: Elements, i: string,
                  d: DesiredElement)
    requires Brought(els, desired, prefix, m) && i in els && d in desired && Identifier(els[i]) == Some(d.identifier)
    ensures i in m && ReadElement(i, els[i]).id == i && m[i] == Updated(els, ReadElement(i, els[i]), d)
  {
    ReadId(i, els[i]);
    hide Identifier, IsManaged, Updated, ReadElement, UpdatedBySome, CreatedBySome;
  }

  lemma DigestUpdated(c: Codec, g: RequirementGraph, els: Elements, i: string, r: Requirement)
    requires g.baseline.importSha256.None? && DigestAt(g, els, i, r)
    ensures var d, e := DesiredOf(c, g, r), ReadElement(i, els[i]);
            && e.id == i && HasDigest(Updated(els, e, d))
            && IsManaged(Updated(els, e, d), BaselinePrefix(g.baseline.id))
  {
    var d, e := DesiredOf(c, g, r), ReadElement(i, els[i]);
    DigestUntouched(c, g, r, i, els[i]);
    ReadId(i, els[i]);
    ReadIdentifier(i, els[i]);
    OwnFields(c, g, r);
    FreeSettles(map[], d);
    UpdateIdentifier(map[], e, d);
    DesiredIdentifier(c, g, r);
    hide Identifier, IsManaged, ReadElement, UpdatePayload, OwnedFieldDiffers, NameOf, DesiredElements, DesiredOf,
      BaselinePrefix, OwnsNoReserved;
    ManagedBy(Updated(els, e, d), BaselinePrefix(g.baseline.id), d.identifier);
  }

  lemma DesiredIdentifier(c: Codec, g: RequirementGraph, r: Requirement)
    ensures var d := DesiredOf(c, g, r);
            d.identifier == RequirementIdentifier(g.baseline.id, r.id) && BaselinePrefix(g.baseline.id) <= d.identifier
  {
    hide Fields, Escape;
  }

  /** The baseline comes back with the graph's own import digest exactly when it has one, or no
      element already stored for one of its requirements holds one. */
  lemma DigestReturnsExactly(c: Codec, g: RequirementGraph, els: Elements, next: nat, changes: seq<DataVersion>,
                             fallback: string)
    requires Faithful(c) && UniqueRequirements(g.requirements) && g.requirements != []
    requires IdsIssued(els, next) && KeepsFields(els, BaselinePrefix(g.baseline.id))
    requires Diff(Managed(els, BaselinePrefix(g.baseline.id)), DesiredElements(c, g)) == Ok(changes)
    ensures var back := Rebuilt(c, g.baseline.id, fallback, ElementsOf(ApplyAll(els, next, changes).0));
            && back.Ok?
            && (back.value.baseline == g.baseline.(exportedSha256 := None)
                <==> g.baseline.importSha256.Some? || !OldDigest(g, els))
  {
    StoreThenFetch(c, g, els, next, changes, fallback);
    if g.baseline.importSha256.None? {
      DigestsAfter(c, g, els, next, changes);
      hide *;
      var m := ApplyAll(els, next, changes).0;
      DigestHeldBy(m, g.baseline.id);
      NoDigestAfter(g, els, m);
    }
  }

  lemma NoDigestAfter(g: RequirementGraph, els: Elements, m: Elements)
    requires DigestsKept(g, els, m)
    ensures (forall i :: i in m && IsManaged(m[i], BaselinePrefix(g.baseline.id)) ==> !HasDigest(m[i]))
            <==> !OldDigest(g, els)
  {
    hide DigestAt, IsManaged, HasDigest, BaselinePrefix;
  }

  /** Storing a graph: the managed diff, committed. */
  ghost function Store(c: Codec, g: RequirementGraph, els: Elements, next: nat): Option<(Elements, nat)> {
    match Diff(Managed(els, BaselinePrefix(g.baseline.id)), DesiredElements(c, g))
    case Ok(changes) => Some(ApplyAll(els, next, changes))
    case Err(_) => None
  }

  /** Storing fails only over identifiers that repeat. */
  lemma StoreGoes(c: Codec, g: RequirementGraph, els: Elements, next: nat)
    requires UniqueRequirements(g.requirements) && UniqueManaged(els, BaselinePrefix(g.baseline.id))
    ensures Store(c, g, els, next).Some?
  {
    var prefix := BaselinePrefix(g.baseline.id);
    UniqueInSeq(els, prefix);
    NoDuplicates(Managed(els, prefix), DesiredElements(c, g));
    forall i, j | 0 <= i < j < |g.requirements|
      ensures DesiredOf(c, g, g.requirements[i]).identifier != DesiredOf(c, g, g.requirements[j]).identifier {
      hide Fields, ElementType, Escape, BaselinePrefix, RequirementIdentifier;
      if RequirementIdentifier(g.baseline.id, g.requirements[i].id)
        == RequirementIdentifier(g.baseline.id, g.requirements[j].id) {
        IdentifierInjective(g.baseline.id, g.requirements[i].id, g.requirements[j].id);
        assert false;
      }
    }
    hide Managed, UniqueIdentifiers, Duplicates, DesiredOf, BaselinePrefix, ChangesFor, DeletesFor, ByIdentifier;
  }

  /** Every element under the prefix holds the digest of the graph stored last. */
  lemma StoredDigest(c: Codec, g: RequirementGraph, m: Elements, i: string)
    requires g.baseline.importSha256.Some?
    requires Matches(m, BaselinePrefix(g.baseline.id), DesiredElements(c, g))
             && KeepsFields(m, BaselinePrefix(g.baseline.id))
    requires i in m && IsManaged(m[i], BaselinePrefix(g.baseline.id))
    ensures HasDigest(m[i]) && m[i][NameOf(DigestField)] == Str(g.baseline.importSha256.value)
  {
    var r := ElementStores(c, g, m, i);
    hide *;
    DigestStored(c, g, r, i, m[i]);
  }

  lemma DigestStored(c: Codec, g: RequirementGraph, r: Requirement, i: string, p: Payload)
    requires g.baseline.importSha256.Some? && Stores(c, g, r, ReadElement(i, p))
    ensures HasDigest(p) && p[NameOf(DigestField)] == Str(g.baseline.importSha256.value)
  {
    ReadDigest(i, p);
    assert FieldValue(c, g, r, DigestField) == Some(Str(g.baseline.importSha256.value));
    hide FieldValue, NameOf, ReadElement, Identifier, RequirementIdentifier;
    assert Holds(ReadElement(i, p), DigestField, Str(g.baseline.importSha256.value));
  }

  /** A graph with an import digest is stored, then one of the same baseline without, sharing a
      requirement: what comes back is the second graph with the digest of the first. */
  lemma OldDigestReturns(c: Codec, before: RequirementGraph, g: RequirementGraph, shared: Requirement,
                         again: Requirement, els: Elements, next: nat, fallback: string)
    requires Faithful(c) && UniqueRequirements(before.requirements) && UniqueRequirements(g.requirements)
    requires before.baseline.id == g.baseline.id && before.baseline.importSha256.Some? && g.baseline.importSha256.None?
    requires shared in before.requirements && again in g.requirements && shared.id == again.id
    requires IdsIssued(els, next) && KeepsFields(els, BaselinePrefix(g.baseline.id))
             && UniqueManaged(els, BaselinePrefix(g.baseline.id))
    ensures Store(c, before, els, next).Some?
    ensures var (m, n) := Store(c, before, els, next).value;
            && Store(c, g, m, n).Some?
            && var back := Rebuilt(c, g.baseline.id, fallback, ElementsOf(Store(c, g, m, n).value.0));
               && back.Ok?
               && back.value.baseline
                  == g.baseline.(exportedSha256 := None, importSha256 := before.baseline.importSha256)
               && back.value.requirements == Sort(AllUnder(back.value.baseline, g.requirements), RequirementKey)
  {
    var prefix := BaselinePrefix(g.baseline.id);
    StoreGoes(c, before, els, next);
    var first := Diff(Managed(els, prefix), DesiredElements(c, before)).value;
    var (m, n) := ApplyAll(els, next, first);
    assert Store(c, before, els, next) == Some((m, n));
    DesiredWithin(c, before);
    WithinSuits(els, prefix, DesiredElements(c, before));
    hide *;
    CommitReconciles(els, next, prefix, DesiredElements(c, before), first);
    CommitKeepsFields(c, before, els, next, first);
    MatchesUnique(m, prefix, DesiredElements(c, before));
    StoreGoes(c, g, m, n);
    SecondStore(c, before, g, shared, again, m, n, fallback);
  }

  lemma MatchesUnique(m: Elements, prefix: string, desired: seq<DesiredElement>)
    requires Matches(m, prefix, desired)
    ensures UniqueManaged(m, prefix)
  {
  }

  lemma SecondStore(c: Codec, before: RequirementGraph, g: RequirementGraph, shared: Requirement, again: Requirement,
                    m: Elements, n: nat, fallback: string)
    requires Faithful(c) && UniqueRequirements(before.requirements) && UniqueRequirements(g.requirements)
    requires before.baseline.id == g.baseline.id && before.baseline.importSha256.Some? && g.baseline.importSha256.None?
    requires shared in before.requirements && again in g.requirements && shared.id == again.id
    requires IdsIssued(m, n) && KeepsFields(m, BaselinePrefix(g.baseline.id)) && Store(c, g, m, n).Some?
    requires Matches(m, BaselinePrefix(g.baseline.id), DesiredElements(c, before))
    ensures var back := Rebuilt(c, g.baseline.id, fallback, ElementsOf(Store(c, g, m, n).value.0));
            && back.Ok?
            && back.value.baseline == g.baseline.(exportedSha256 := None, importSha256 := before.baseline.importSha256)
            && back.value.requirements == Sort(AllUnder(back.value.baseline, g.requirements), RequirementKey)
  {
    var changes := Diff(Managed(m, BaselinePrefix(g.baseline.id)), DesiredElements(c, g)).value;
    var after := ApplyAll(m, n, changes).0;
    assert Store(c, g, m, n).value.0 == after;
    assert again in g.requirements ==> g.requirements != [];
    hide *;
    StoreThenFetch(c, g, m, n, changes, fallback);
    DigestsAfter(c, g, m, n, changes);
    SharedDigest(c, before, g, shared, again, m);
    DigestFirst(c, before, g, m, after, again);
  }

  lemma SharedDigest(c: Codec, before: RequirementGraph, g: RequirementGraph, shared: Requirement, again: Requirement,
                     m: Elements)
    requires UniqueRequirements(before.requirements) && before.baseline.id == g.baseline.id
             && before.baseline.importSha256.Some?
    requires shared in before.requirements && again in g.requirements && shared.id == again.id
    requires Matches(m, BaselinePrefix(g.baseline.id), DesiredElements(c, before))
             && KeepsFields(m, BaselinePrefix(g.baseline.id))
    ensures exists i :: DigestAt(g, m, i, again)
  {
    var i := RequirementStored(c, before, m, shared);
    StoredDigest(c, before, m, i);
    ReadIdentifier(i, m[i]);
    hide Matches, KeepsFields, DesiredElements, IsManaged, ReadElement, BaselinePrefix, Identifier, HasDigest,
      FieldValue, NameOf, Holds;
    assert DigestAt(g, m, i, again);
  }

  lemma DigestFirst(c: Codec, before: RequirementGraph, g: RequirementGraph, m: Elements, after: Elements,
                    again: Requirement)
    requires before.baseline.id == g.baseline.id && before.baseline.importSha256.Some?
    requires Matches(m, BaselinePrefix(g.baseline.id), DesiredElements(c, before))
             && KeepsFields(m, BaselinePrefix(g.baseline.id))
    requires DigestsKept(g, m, after) && exists i :: DigestAt(g, m, i, again)
    ensures DigestHeld(ElementsOf(after), g.baseline.id) == before.baseline.importSha256
  {
    var prefix := BaselinePrefix(g.baseline.id);
    DigestHeldBy(after, g.baseline.id);
    hide Matches, KeepsFields, DesiredElements, IsManaged, ElementsOf, DigestHeld, NameOf, RequirementIdentifier;
    var i :| DigestAt(g, m, i, again);
    assert StillHasDigest(g, after, i);
    var held := DigestHeld(ElementsOf(after), g.baseline.id);
    var j :| j in after && IsManaged(after[j], prefix) && HasDigest(after[j])
      && after[j][NameOf(DigestField)] == Str(held.value);
    assert HadDigest(g, m, j, after[j]);
    var r :| DigestAt(g, m, j, r);
    OwnIdentifier(g.baseline.id, r.id, m[j]);
    StoredDigest(c, before, m, j);
  }

  lemma OwnIdentifier(baseline: string, id: string, p: Payload)
    requires Identifier(p) == Some(RequirementIdentifier(baseline, id))
    ensures IsManaged(p, BaselinePrefix(baseline))
  {
    hide Identifier, BaselinePrefix;
  }
}
