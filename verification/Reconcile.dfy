/** What a committed managed diff achieves on the server: the managed elements become the desired
    ones, everything else is left alone, and a second diff finds nothing to do. */
module Reconcile {
  import opened ModelServer
  import opened Ordering
  import opened SyncEngine
  import opened Wrappers

  predicate IsManaged(fields: map<string, Json>, prefix: string) {
    Identifier(fields).Some? && prefix <= Identifier(fields).value
  }

  /** `filter(|e| element_identifier(e).is_some_and(|i| i.starts_with(managed_prefix)))`. */
  function Restrict(es: seq<Element>, prefix: string): seq<Element> {
    if es == [] then []
    else Restrict(es[..|es| - 1], prefix) + if IsManaged(es[|es| - 1].fields, prefix) then [es[|es| - 1]] else []
  }

  /** The elements a proposal with this prefix diffs against. */
  function Managed(els: Elements, prefix: string): seq<Element> {
    Restrict(ElementsOf(els), prefix)
  }

  /** The sync owns none of the fields the engine itself writes. */
  predicate OwnsNoReserved(d: DesiredElement) {
    forall k :: k in d.fields ==> k !in {"@id", "@type", "identifier", "aliasIds"}
  }

  predicate WithinPrefix(desired: seq<DesiredElement>, prefix: string) {
    forall d :: d in desired ==> prefix <= d.identifier && OwnsNoReserved(d)
  }

  predicate InPrefix(desired: seq<DesiredElement>, prefix: string) {
    forall d :: d in desired ==> prefix <= d.identifier
  }

  predicate KeepsString(fields: map<string, Json>) {
    "identifier" in fields && fields["identifier"].Str?
  }

  /** Of the fields the engine writes itself, the sync owns at most the identifier, with the element's
      own, and the aliases: with that identifier alone, unless the element is there and is known by its
      `identifier` field. */
  predicate SettlesFor(known: map<string, Element>, d: DesiredElement) {
    && "@id" !in d.fields && "@type" !in d.fields
    && ("identifier" in d.fields ==> d.fields["identifier"] == Str(d.identifier))
    && ("aliasIds" in d.fields ==>
          || d.fields["aliasIds"] == Arr([Str(d.identifier)])
          || (d.identifier in known && KeepsString(known[d.identifier].fields)))
  }

  predicate Suits(known: map<string, Element>, desired: seq<DesiredElement>, prefix: string) {
    forall d :: d in desired ==> prefix <= d.identifier && SettlesFor(known, d)
  }

  /** What a desired set must satisfy for a commit to bring it about. */
  predicate SuitsIn(els: Elements, prefix: string, desired: seq<DesiredElement>) {
    Suits(ByIdentifier(Managed(els, prefix)), desired, prefix)
  }

  lemma WithinSuits(els: Elements, prefix: string, desired: seq<DesiredElement>)
    requires WithinPrefix(desired, prefix)
    ensures SuitsIn(els, prefix, desired)
  {
    hide Managed, ByIdentifier, OwnsNoReserved, SettlesFor;
    forall d | d in desired ensures SettlesFor(ByIdentifier(Managed(els, prefix)), d) {
      FreeSettles(ByIdentifier(Managed(els, prefix)), d);
    }
  }

  lemma FreeSettles(known: map<string, Element>, d: DesiredElement)
    requires OwnsNoReserved(d)
    ensures SettlesFor(known, d)
  {
    assert "@id" !in d.fields && "@type" !in d.fields && "identifier" !in d.fields && "aliasIds" !in d.fields;
  }

  /** Every element id was issued by the server's counter. */
  ghost predicate IdsIssued(els: Elements, next: nat) {
    forall id :: id in els ==> Issued(id, next)
  }

  ghost predicate Issued(id: string, next: nat) {
    exists j: nat :: j <= next && id == ElementId(j)
  }

  lemma FreshId(els: Elements, next: nat)
    requires IdsIssued(els, next)
    ensures ElementId(next + 1) !in els
  {
    if ElementId(next + 1) in els {
      assert Issued(ElementId(next + 1), next);
      var j: nat :| j <= next && ElementId(next + 1) == ElementId(j);
      ElementIdInjective(next + 1, j);
    }
  }

  /** None of the ids issued from `next` up to `last` is in use. */
  ghost predicate Fresh(els: Elements, next: nat, last: nat) {
    forall j: nat :: next < j <= last ==> ElementId(j) !in els
  }

  lemma IssuedFresh(els: Elements, next: nat, last: nat)
    requires IdsIssued(els, next)
    ensures Fresh(els, next, last)
  {
    hide ElementId;
    forall j: nat | next < j <= last ensures ElementId(j) !in els {
      if ElementId(j) in els {
        assert Issued(ElementId(j), next);
        var i: nat :| i <= next && ElementId(j) == ElementId(i);
        ElementIdInjective(i, j);
      }
    }
  }

  /** The ids of `m` that `els` does not have were issued from `next` up to `n`. */
  ghost predicate NewIds(els: Elements, next: nat, m: Elements, n: nat) {
    forall id :: id in m && id !in els ==> IssuedBetween(id, next, n)
  }

  ghost predicate IssuedBetween(id: string, next: nat, n: nat) {
    exists j: nat :: next < j <= n && id == ElementId(j)
  }

  lemma NextIsNew(els: Elements, next: nat, m: Elements, n: nat)
    requires NewIds(els, next, m, n) && n >= next && ElementId(n + 1) !in els
    ensures ElementId(n + 1) !in m
  {
    if ElementId(n + 1) in m {
      assert IssuedBetween(ElementId(n + 1), next, n);
      var j: nat :| next < j <= n && ElementId(n + 1) == ElementId(j);
      ElementIdInjective(n + 1, j);
    }
  }

  lemma OneMoreId(els: Elements, next: nat, m: Elements, n: nat, p: Payload)
    requires NewIds(els, next, m, n) && n >= next
    ensures NewIds(els, next, m[ElementId(n + 1) := p], n + 1)
  {
    hide ElementId;
    assert IssuedBetween(ElementId(n + 1), next, n + 1);
    forall id | id in m && id !in els ensures IssuedBetween(id, next, n + 1) {
      assert IssuedBetween(id, next, n);
      var j: nat :| next < j <= n && id == ElementId(j);
    }
  }

  lemma NewIdsIssued(els: Elements, next: nat, m: Elements, n: nat)
    requires IdsIssued(els, next) && NewIds(els, next, m, n) && n >= next
    ensures IdsIssued(m, n)
  {
    hide ElementId;
    forall id | id in m ensures Issued(id, n) {
      if id in els {
        assert Issued(id, next);
        var j: nat :| j <= next && id == ElementId(j);
      } else {
        assert IssuedBetween(id, next, n);
        var j: nat :| next < j <= n && id == ElementId(j);
      }
    }
  }

  // ---------------------------------------------------------------- reading payloads

  lemma ReadIdentifier(id: string, p: Payload)
    ensures Identifier(ReadElement(id, p).fields) == Identifier(p)
  {
    var q := ReadElement(id, p).fields;
    assert "identifier" in q <==> "identifier" in p;
    assert "aliasIds" in q <==> "aliasIds" in p;
  }

  lemma CreateIdentifier(d: DesiredElement)
    ensures Identifier(CreatePayload(d)) == Some(d.identifier)
  {
  }

  lemma UpdateIdentifier(known: map<string, Element>, e: Element, d: DesiredElement)
    requires SettlesFor(known, d) && (d.identifier in known ==> known[d.identifier].fields == e.fields)
    requires Identifier(e.fields) == Some(d.identifier)
    ensures Identifier(UpdatePayload(e, d)) == Some(d.identifier)
  {
    var p := UpdatePayload(e, d);
    assert "identifier" in p <==> "identifier" in e.fields || "identifier" in d.fields;
    assert "aliasIds" in p <==> "aliasIds" in e.fields || "aliasIds" in d.fields;
    assert FirstString([Str(d.identifier)]) == Some(d.identifier);
  }

  /** A stored payload carries every owned field as desired, as far as its server keeps them. */
  predicate Agrees(p: Payload, d: DesiredElement) {
    !OwnedFieldDiffers(p - {"@id", "@type"}, d)
  }

  lemma CreateAgrees(known: map<string, Element>, d: DesiredElement)
    requires SettlesFor(known, d) && d.identifier !in known
    ensures Agrees(CreatePayload(d), d)
  {
  }

  lemma UpdateAgrees(known: map<string, Element>, e: Element, d: DesiredElement)
    requires SettlesFor(known, d)
    ensures Agrees(UpdatePayload(e, d), d)
  {
  }

  // ---------------------------------------------------------------- the managed elements

  lemma {:induction false} RestrictMembers(es: seq<Element>, prefix: string)
    ensures forall e :: e in Restrict(es, prefix) <==> e in es && IsManaged(e.fields, prefix)
  {
    if es != [] {
      var rest, last := es[..|es| - 1], es[|es| - 1];
      assert es == rest + [last];
      RestrictMembers(rest, prefix);
      hide IsManaged;
    }
  }

  lemma ManagedMembers(els: Elements, prefix: string)
    ensures forall e :: e in Managed(els, prefix)
              <==> e.id in els && e == ReadElement(e.id, els[e.id]) && IsManaged(els[e.id], prefix)
  {
    var ids := InOrder(els.Keys);
    var all := ElementsOf(els);
    RestrictMembers(all, prefix);
    forall e ensures e in all <==> e.id in els && e == ReadElement(e.id, els[e.id]) {
      if e in all {
        var k :| 0 <= k < |all| && all[k] == e;
        assert ids[k] in ids;
      }
      if e.id in els && e == ReadElement(e.id, els[e.id]) {
        assert e.id in ids;
        var k :| 0 <= k < |ids| && ids[k] == e.id;
        assert all[k] == e;
      }
    }
    forall e: Element | e.id in els && e == ReadElement(e.id, els[e.id])
      ensures IsManaged(e.fields, prefix) <==> IsManaged(els[e.id], prefix)
    {
      ReadIdentifier(e.id, els[e.id]);
    }
  }

  lemma ManagedAt(els: Elements, prefix: string, k: nat)
    requires k < |Managed(els, prefix)|
    ensures var e := Managed(els, prefix)[k];
            && e.id in els && e == ReadElement(e.id, els[e.id]) && IsManaged(els[e.id], prefix)
            && Identifier(e.fields) == Identifier(els[e.id])
  {
    ManagedMembers(els, prefix);
    hide *;
    var e := Managed(els, prefix)[k];
    assert e in Managed(els, prefix);
    ReadIdentifier(e.id, els[e.id]);
  }

  lemma ManagedHas(els: Elements, prefix: string, i: string) returns (k: nat)
    requires i in els && IsManaged(els[i], prefix)
    ensures k < |Managed(els, prefix)| && Managed(els, prefix)[k] == ReadElement(i, els[i])
    ensures Identifier(ReadElement(i, els[i]).fields) == Identifier(els[i])
  {
    ManagedMembers(els, prefix);
    ReadIdentifier(i, els[i]);
    var e := ReadElement(i, els[i]);
    assert e.id == i;
    hide *;
    assert e in Managed(els, prefix);
    k :| 0 <= k < |Managed(els, prefix)| && Managed(els, prefix)[k] == e;
  }

  /** No two managed elements share an identifier. */
  ghost predicate UniqueManaged(els: Elements, prefix: string) {
    forall i, j :: i in els && j in els && IsManaged(els[i], prefix) && Identifier(els[i]) == Identifier(els[j]) ==>
      i == j
  }

  lemma RestrictAt(es: seq<Element>, prefix: string, k: nat) returns (i: nat)
    requires k < |Restrict(es, prefix)|
    ensures i < |es| && es[i] == Restrict(es, prefix)[k]
  {
    RestrictMembers(es, prefix);
    hide *;
    var e := Restrict(es, prefix)[k];
    assert e in Restrict(es, prefix);
    i :| 0 <= i < |es| && es[i] == e;
  }

  lemma {:induction false} RestrictDistinct(es: seq<Element>, prefix: string)
    requires forall i, j :: 0 <= i < j < |es| ==> es[i].id != es[j].id
    ensures forall i, j :: 0 <= i < j < |Restrict(es, prefix)| ==>
            Restrict(es, prefix)[i].id != Restrict(es, prefix)[j].id
  {
    if es != [] {
      var rest, last := es[..|es| - 1], es[|es| - 1];
      RestrictDistinct(rest, prefix);
      var r := Restrict(rest, prefix);
      assert Restrict(es, prefix) == r + if IsManaged(last.fields, prefix) then [last] else [];
      hide IsManaged, Restrict;
      forall i | 0 <= i < |r| ensures r[i].id != last.id {
        var k := RestrictAt(rest, prefix, i);
        assert es[k] == rest[k];
      }
    }
  }

  lemma ManagedDistinct(els: Elements, prefix: string)
    ensures var r := Managed(els, prefix); forall i, j :: 0 <= i < j < |r| ==> r[i].id != r[j].id
  {
    RestrictDistinct(ElementsOf(els), prefix);
  }

  lemma UniqueInSeq(els: Elements, prefix: string)
    ensures UniqueIdentifiers(Managed(els, prefix)) <==> UniqueManaged(els, prefix)
  {
    ManagedDistinct(els, prefix);
    hide Identifier, IsManaged, Managed, ReadElement;
    var r := Managed(els, prefix);
    if UniqueIdentifiers(r) {
      forall i, j | i in els && j in els && IsManaged(els[i], prefix) && Identifier(els[i]) == Identifier(els[j])
        ensures i == j
      {
        ManagedIdentifier(els[i], prefix);
        ManagedIdentifier(els[j], prefix);
        var a := ManagedHas(els, prefix, i);
        var b := ManagedHas(els, prefix, j);
        assert Identifier(r[a].fields) == Identifier(r[b].fields);
        ReadId(i, els[i]);
        ReadId(j, els[j]);
      }
    }
    if UniqueManaged(els, prefix) {
      forall a, b | 0 <= a < b < |r| && Identifier(r[a].fields).Some?
        ensures Identifier(r[a].fields) != Identifier(r[b].fields)
      {
        ManagedAt(els, prefix, a);
        ManagedAt(els, prefix, b);
      }
    }
  }

  lemma ReadId(i: string, p: Payload)
    ensures ReadElement(i, p).id == i
  {
  }

  lemma ManagedIdentifier(p: Payload, prefix: string)
    ensures IsManaged(p, prefix) ==> Identifier(p).Some? && prefix <= Identifier(p).value
    ensures forall q: Payload :: Identifier(q) == Identifier(p) ==> IsManaged(q, prefix) == IsManaged(p, prefix)
  {
  }

  /** `by_identifier` over the managed elements of `els`. */
  ghost predicate IsIndex(els: Elements, prefix: string, known: map<string, Element>) {
    && (forall x :: x in known ==> known[x].id in els && known[x] == ReadElement(known[x].id, els[known[x].id])
                                   && Identifier(els[known[x].id]) == Some(x) && prefix <= x)
    && (forall i :: i in els && IsManaged(els[i], prefix) ==>
          Identifier(els[i]).Some? && Identifier(els[i]).value in known && known[Identifier(els[i]).value].id == i)
  }

  lemma ManagedIndex(els: Elements, prefix: string)
    requires UniqueManaged(els, prefix)
    ensures IsIndex(els, prefix, ByIdentifier(Managed(els, prefix)))
  {
    var r := Managed(els, prefix);
    var known := ByIdentifier(r);
    ByIdentifierKeys(r);
    hide Identifier, IsManaged, Managed, ReadElement, ByIdentifier;
    forall x | x in known
      ensures known[x].id in els && known[x] == ReadElement(known[x].id, els[known[x].id])
              && Identifier(els[known[x].id]) == Some(x) && prefix <= x
    {
      assert known[x] in r;
      var k :| 0 <= k < |r| && r[k] == known[x];
      ManagedAt(els, prefix, k);
      ManagedIdentifier(els[known[x].id], prefix);
    }
    forall i | i in els && IsManaged(els[i], prefix)
      ensures Identifier(els[i]).Some? && Identifier(els[i]).value in known && known[Identifier(els[i]).value].id == i
    {
      ManagedIdentifier(els[i], prefix);
      var k := ManagedHas(els, prefix, i);
      assert r[k] in r && Identifier(r[k].fields) == Some(Identifier(els[i]).value);
      ManagedIdentifier(els[known[Identifier(els[i]).value].id], prefix);
    }
  }

  // ---------------------------------------------------------------- the state after the creates and updates

  ghost predicate Targets(known: map<string, Element>, d: DesiredElement, i: string) {
    d.identifier in known && known[d.identifier].id == i
  }

  ghost predicate Untargeted(known: map<string, Element>, desired: seq<DesiredElement>, i: string) {
    forall d :: d in desired ==> !Targets(known, d, i)
  }

  /** What the payload of an existing element becomes under its desired form. */
  function Updated(els: Elements, e: Element, d: DesiredElement): Payload
    requires e.id in els
  {
    if OwnedFieldDiffers(e.fields, d) then UpdatePayload(e, d) else els[e.id]
  }

  /** The elements of `els` in `m`, after the creates and updates for `desired`. */
  ghost predicate Keeps(els: Elements, known: map<string, Element>, desired: seq<DesiredElement>, m: Elements) {
    && (forall i :: i in els ==> i in m)
    && (forall i :: i in els && Untargeted(known, desired, i) ==> m[i] == els[i])
    && (forall d :: d in desired && d.identifier in known && known[d.identifier].id in els ==>
          known[d.identifier].id in m && m[known[d.identifier].id] == Updated(els, known[d.identifier], d))
  }

  /** The other elements of `m`: one for each desired identifier that was unknown. */
  ghost predicate Adds(els: Elements, known: map<string, Element>, desired: seq<DesiredElement>, m: Elements) {
    && (forall i :: i in m && i !in els ==> CreatedFor(known, desired, m[i]))
    && (forall d :: d in desired && d.identifier !in known ==> HasCreated(els, m, d))
    && (forall i, j :: i in m && j in m && i !in els && j !in els && Identifier(m[i]) == Identifier(m[j]) ==> i == j)
  }

  ghost predicate CreatedFor(known: map<string, Element>, desired: seq<DesiredElement>, p: Payload) {
    exists d :: d in desired && d.identifier !in known && p == CreatePayload(d)
  }

  ghost predicate HasCreated(els: Elements, m: Elements, d: DesiredElement) {
    exists i :: i in m && i !in els && m[i] == CreatePayload(d)
  }

  lemma KeepsCreate(els: Elements, known: map<string, Element>, before: seq<DesiredElement>, d: DesiredElement,
                    m: Elements, id: string)
    requires Keeps(els, known, before, m) && d.identifier !in known && id !in m
    ensures Keeps(els, known, before + [d], m[id := CreatePayload(d)])
  {
    hide Updated, CreatePayload;
    var after, m' := before + [d], m[id := CreatePayload(d)];
    forall i | i in els && Untargeted(known, after, i) ensures m'[i] == els[i] {
      assert forall b :: b in before ==> b in after;
      assert Untargeted(known, before, i);
    }
  }

  lemma CreatedHasIdentifier(known: map<string, Element>, desired: seq<DesiredElement>, p: Payload)
    requires CreatedFor(known, desired, p)
    ensures exists b :: b in desired && b.identifier !in known && Identifier(p) == Some(b.identifier)
  {
    var b :| b in desired && b.identifier !in known && p == CreatePayload(b);
    CreateIdentifier(b);
  }

  lemma AddsCreateHas(els: Elements, known: map<string, Element>, before: seq<DesiredElement>, d: DesiredElement,
                      m: Elements, id: string)
    requires Adds(els, known, before, m) && d.identifier !in known && id !in m && id !in els
    ensures forall b :: b in before + [d] && b.identifier !in known ==> HasCreated(els, m[id := CreatePayload(d)], b)
  {
    hide CreatePayload, Identifier;
    var m' := m[id := CreatePayload(d)];
    forall b | b in before + [d] && b.identifier !in known ensures HasCreated(els, m', b) {
      if b in before {
        assert HasCreated(els, m, b);
        var i :| i in m && i !in els && m[i] == CreatePayload(b);
        assert i in m' && m'[i] == CreatePayload(b);
      } else {
        assert id in m' && m'[id] == CreatePayload(b);
      }
    }
  }

  lemma AddsCreateUnique(els: Elements, known: map<string, Element>, before: seq<DesiredElement>, d: DesiredElement,
                         m: Elements)
    requires Adds(els, known, before, m) && forall b :: b in before ==> b.identifier != d.identifier
    ensures forall i :: i in m && i !in els ==> Identifier(m[i]) != Some(d.identifier)
  {
    hide Identifier, CreatePayload;
    forall i | i in m && i !in els ensures Identifier(m[i]) != Some(d.identifier) {
      CreatedHasIdentifier(known, before, m[i]);
    }
  }

  lemma AddsCreate(els: Elements, known: map<string, Element>, before: seq<DesiredElement>, d: DesiredElement,
                   m: Elements, id: string)
    requires Adds(els, known, before, m) && d.identifier !in known && id !in m && id !in els
    requires forall b :: b in before ==> b.identifier != d.identifier
    ensures Adds(els, known, before + [d], m[id := CreatePayload(d)])
  {
    CreateIdentifier(d);
    AddsCreateHas(els, known, before, d, m, id);
    AddsCreateUnique(els, known, before, d, m);
    hide Identifier, CreatePayload, HasCreated;
    var after, m' := before + [d], m[id := CreatePayload(d)];
    forall i | i in m' && i !in els ensures CreatedFor(known, after, m'[i]) {
      if i == id {
        assert d in after;
      } else {
        CreatedForMore(known, before, d, m[i]);
      }
    }
  }

  lemma CreatedForMore(known: map<string, Element>, before: seq<DesiredElement>, d: DesiredElement, p: Payload)
    requires CreatedFor(known, before, p)
    ensures CreatedFor(known, before + [d], p)
  {
    hide CreatePayload;
    var b :| b in before && b.identifier !in known && p == CreatePayload(b);
    assert b in before + [d];
  }

  lemma KeepsUpdate(els: Elements, prefix: string, known: map<string, Element>, before: seq<DesiredElement>,
                    d: DesiredElement, m: Elements)
    requires Keeps(els, known, before, m) && IsIndex(els, prefix, known) && d.identifier in known
    requires forall b :: b in before ==> b.identifier != d.identifier
    ensures var e := known[d.identifier];
            && Keeps(els, known, before + [d], m[e.id := Updated(els, e, d)])
            && e.id in els && (!OwnedFieldDiffers(e.fields, d) ==> m[e.id := Updated(els, e, d)] == m)
  {
    hide Identifier, UpdatePayload, OwnedFieldDiffers, ReadElement, IsManaged;
    var e, after := known[d.identifier], before + [d];
    var m' := m[e.id := Updated(els, e, d)];
    assert d in after && forall b :: b in before ==> b in after;
    assert Identifier(els[e.id]) == Some(d.identifier);
    forall b | b in before ensures !Targets(known, b, e.id) {
      assert b.identifier in known ==> Identifier(els[known[b.identifier].id]) == Some(b.identifier);
    }
    assert Untargeted(known, before, e.id);
    forall i | i in els && Untargeted(known, after, i) ensures m'[i] == els[i] {
      assert Untargeted(known, before, i);
      assert !Targets(known, d, i);
    }
    forall b | b in after && b.identifier in known && known[b.identifier].id in els
      ensures known[b.identifier].id in m' && m'[known[b.identifier].id] == Updated(els, known[b.identifier], b)
    {
      if b != d {
        assert b in before;
        assert !Targets(known, b, e.id);
      }
    }
  }

  lemma AddsUpdate(els: Elements, known: map<string, Element>, before: seq<DesiredElement>, d: DesiredElement,
                   m: Elements, i: string, p: Payload)
    requires Adds(els, known, before, m) && d.identifier in known && i in els
    ensures Adds(els, known, before + [d], m[i := p])
  {
    hide Identifier, CreatePayload;
    var after, m' := before + [d], m[i := p];
    assert forall b :: b in before ==> b in after;
    forall j | j in m' && j !in els ensures CreatedFor(known, after, m'[j]) {
      CreatedForMore(known, before, d, m[j]);
    }
    forall b | b in after && b.identifier !in known ensures HasCreated(els, m', b) {
      assert HasCreated(els, m, b);
      var j :| j in m && j !in els && m[j] == CreatePayload(b);
      assert m'[j] == CreatePayload(b);
    }
  }

  /** After the creates and updates of a changeset whose ids are fresh: the existing elements are as
      planned, and the new ones are the unknown desired ones, under ids the counter issued. */
  lemma {:induction false} PlanApplied(els: Elements, next: nat, prefix: string, known: map<string, Element>,
                                       desired: seq<DesiredElement>)
    requires IsIndex(els, prefix, known) && UniqueDesired(desired)
    requires Fresh(els, next, ApplyAll(els, next, ChangesFor(known, desired)).1)
    ensures var (m, n) := ApplyAll(els, next, ChangesFor(known, desired));
            Keeps(els, known, desired, m) && Adds(els, known, desired, m) && NewIds(els, next, m, n) && n >= next
    decreases |desired|
  {
    if desired != [] {
      var before, d := desired[..|desired| - 1], desired[|desired| - 1];
      assert desired == before + [d];
      var changes := ChangesFor(known, before);
      CounterAfter(els, next, changes, known, d);
      PlanApplied(els, next, prefix, known, before);
      assert forall b :: b in before ==> b.identifier != d.identifier;
      PlanStep(els, next, prefix, known, before, d, changes);
    }
  }

  /** The counter moves on by one for a create and stays for an update. */
  lemma CounterAfter(els: Elements, next: nat, changes: seq<DataVersion>, known: map<string, Element>,
                     d: DesiredElement)
    ensures ApplyAll(els, next, changes + ChangeFor(known, d)).1
            == ApplyAll(els, next, changes).1 + if d.identifier in known then 0 else 1
  {
    hide CreatePayload, UpdatePayload, OwnedFieldDiffers, ApplyAll, ElementId;
    if ChangeFor(known, d) == [] {
      assert changes + [] == changes;
    } else {
      ApplySnoc(els, next, changes, ChangeFor(known, d)[0]);
    }
  }

  lemma ApplySnoc(els: Elements, next: nat, changes: seq<DataVersion>, c: DataVersion)
    ensures var (m, n) := ApplyAll(els, next, changes);
            ApplyAll(els, next, changes + [c]) == ApplyOne(m, n, c)
  {
    assert (changes + [c])[..|changes|] == changes;
  }

  lemma PlanStep(els: Elements, next: nat, prefix: string, known: map<string, Element>, before: seq<DesiredElement>,
                 d: DesiredElement, changes: seq<DataVersion>)
    requires IsIndex(els, prefix, known) && forall b :: b in before ==> b.identifier != d.identifier
    requires var (m, n) := ApplyAll(els, next, changes);
             && Keeps(els, known, before, m) && Adds(els, known, before, m) && NewIds(els, next, m, n) && n >= next
             && (d.identifier !in known ==> ElementId(n + 1) !in els)
    ensures var (m, n) := ApplyAll(els, next, changes + ChangeFor(known, d));
            Keeps(els, known, before + [d], m) && Adds(els, known, before + [d], m) && NewIds(els, next, m, n)
              && n >= next
  {
    var (m, n) := ApplyAll(els, next, changes);
    hide Identifier, CreatePayload, UpdatePayload, OwnedFieldDiffers, ApplyAll, Adds, IsIndex, ElementId;
    if d.identifier !in known {
      var id := ElementId(n + 1);
      NextIsNew(els, next, m, n);
      KeepsCreate(els, known, before, d, m, id);
      AddsCreate(els, known, before, d, m, id);
      ApplySnoc(els, next, changes, DataVersion(Some(CreatePayload(d)), None));
      OneMoreId(els, next, m, n, CreatePayload(d));
    } else {
      var e := known[d.identifier];
      KeepsUpdate(els, prefix, known, before, d, m);
      AddsUpdate(els, known, before, d, m, e.id, Updated(els, e, d));
      if OwnedFieldDiffers(e.fields, d) {
        ApplySnoc(els, next, changes, DataVersion(Some(UpdatePayload(e, d)), Some(e.id)));
        assert e.id in m;
      } else {
        assert changes + [] == changes;
      }
    }
  }

  lemma MoreIssued(m: Elements, n: nat, p: Payload)
    requires IdsIssued(m, n)
    ensures IdsIssued(m[ElementId(n + 1) := p], n + 1)
  {
    hide ElementId;
    forall id | id in m ensures Issued(id, n + 1) {
      assert Issued(id, n);
      var j: nat :| j <= n && id == ElementId(j);
      assert j <= n + 1 && id == ElementId(j);
    }
    assert n + 1 <= n + 1 && ElementId(n + 1) == ElementId(n + 1);
  }

  /** The ids the deletes of a changeset remove. */
  ghost function Dropped(known: map<string, Element>, wanted: set<string>, order: seq<string>): set<string>
    requires forall x :: x in order ==> x in known
  {
    set x | x in order && x !in wanted :: known[x].id
  }

  lemma DroppedSnoc(known: map<string, Element>, wanted: set<string>, rest: seq<string>, x: string)
    requires x in known && forall y :: y in rest ==> y in known
    ensures Dropped(known, wanted, rest + [x])
            == Dropped(known, wanted, rest) + if x in wanted then {} else {known[x].id}
  {
    var order := rest + [x];
    assert forall y :: y in order <==> y in rest || y == x;
  }

  lemma {:induction false} DeletesApplied(els: Elements, next: nat, changes: seq<DataVersion>,
                                          known: map<string, Element>, wanted: set<string>, order: seq<string>)
    requires forall x :: x in order ==> x in known
    ensures var (m, n) := ApplyAll(els, next, changes);
            ApplyAll(els, next, changes + DeletesFor(known, wanted, order)) == (m - Dropped(known, wanted, order), n)
    decreases |order|
  {
    hide ApplyAll;
    var (m, n) := ApplyAll(els, next, changes);
    if order == [] {
      assert changes + [] == changes;
      assert Dropped(known, wanted, order) == {};
      assert m - {} == m;
    } else {
      var rest, x := order[..|order| - 1], order[|order| - 1];
      assert order == rest + [x];
      DeletesApplied(els, next, changes, known, wanted, rest);
      DroppedSnoc(known, wanted, rest, x);
      var so_far := changes + DeletesFor(known, wanted, rest);
      assert changes + DeletesFor(known, wanted, order) == so_far + DeleteFor(known, wanted, x);
      OneDelete(els, next, so_far, known, wanted, x);
      var before := Dropped(known, wanted, rest);
      hide Dropped, DeletesFor;
      var gone: set<string> := if x in wanted then {} else {known[x].id};
      assert (m - before) - gone == m - (before + gone);
    }
  }

  lemma OneDelete(els: Elements, next: nat, changes: seq<DataVersion>, known: map<string, Element>,
                  wanted: set<string>, x: string)
    requires x in known
    ensures var (m, n) := ApplyAll(els, next, changes);
            ApplyAll(els, next, changes + DeleteFor(known, wanted, x))
            == (m - if x in wanted then {} else {known[x].id}, n)
  {
    var (m, n) := ApplyAll(els, next, changes);
    if x in wanted {
      assert changes + [] == changes && m - {} == m;
    } else {
      ApplySnoc(els, next, changes, DataVersion(None, Some(known[x].id)));
    }
  }

  // ---------------------------------------------------------------- the outcome

  /** The managed part of `m` is the desired set: one element for each desired identifier, no
      others, each with the owned fields as desired. */
  ghost predicate Matches(m: Elements, prefix: string, desired: seq<DesiredElement>) {
    && UniqueManaged(m, prefix)
    && (forall i :: i in m && IsManaged(m[i], prefix) ==> MatchesSome(m[i], desired))
    && (forall d :: d in desired ==> HasElement(m, d))
  }

  ghost predicate MatchesSome(p: Payload, desired: seq<DesiredElement>) {
    exists d :: d in desired && Identifier(p) == Some(d.identifier) && Agrees(p, d)
  }

  ghost predicate HasElement(m: Elements, d: DesiredElement) {
    exists i :: i in m && Identifier(m[i]) == Some(d.identifier)
  }

  lemma {:induction false} NothingPlanned(known: map<string, Element>, desired: seq<DesiredElement>)
    requires forall d :: d in desired ==> ChangeFor(known, d) == []
    ensures ChangesFor(known, desired) == []
  {
    if desired != [] {
      var before := desired[..|desired| - 1];
      assert desired == before + [desired[|desired| - 1]];
      NothingPlanned(known, before);
    }
  }

  lemma {:induction false} NothingDropped(known: map<string, Element>, wanted: set<string>, order: seq<string>)
    requires forall x :: x in order ==> x in known && x in wanted
    ensures DeletesFor(known, wanted, order) == []
  {
    if order != [] {
      var before := order[..|order| - 1];
      assert order == before + [order[|order| - 1]];
      NothingDropped(known, wanted, before);
    }
  }

  /** When the managed elements already match, the diff is empty. */
  lemma MatchesMeansNoChange(m: Elements, prefix: string, desired: seq<DesiredElement>)
    requires Matches(m, prefix, desired) && UniqueDesired(desired) && InPrefix(desired, prefix)
    ensures Diff(Managed(m, prefix), desired) == Ok([])
  {
    var existing := Managed(m, prefix);
    var known := ByIdentifier(existing);
    UniqueInSeq(m, prefix);
    NoDuplicates(existing, desired);
    ManagedIndex(m, prefix);
    forall d | d in desired ensures ChangeFor(known, d) == [] {
      MatchedUnchanged(m, prefix, desired, known, d);
    }
    NothingPlanned(known, desired);
    forall x | x in known ensures x in Wanted(desired) {
      hide Identifier, OwnedFieldDiffers, Managed;
      var i := known[x].id;
      ManagedBy(m[i], prefix, x);
      assert MatchesSome(m[i], desired);
    }
    NothingDropped(known, Wanted(desired), InOrder(known.Keys));
    var none: seq<DataVersion> := [];
    assert none + none == none;
  }

  lemma ManagedBy(p: Payload, prefix: string, x: string)
    requires Identifier(p) == Some(x) && prefix <= x
    ensures IsManaged(p, prefix)
  {
  }

  lemma MatchedUnchanged(m: Elements, prefix: string, desired: seq<DesiredElement>, known: map<string, Element>,
                         d: DesiredElement)
    requires Matches(m, prefix, desired) && UniqueDesired(desired) && InPrefix(desired, prefix)
    requires IsIndex(m, prefix, known) && d in desired
    ensures ChangeFor(known, d) == []
  {
    hide Identifier, OwnedFieldDiffers, IsManaged;
    assert HasElement(m, d);
    var i :| i in m && Identifier(m[i]) == Some(d.identifier);
    ManagedBy(m[i], prefix, d.identifier);
    assert MatchesSome(m[i], desired);
    var d' :| d' in desired && Identifier(m[i]) == Some(d'.identifier) && Agrees(m[i], d');
    var a :| 0 <= a < |desired| && desired[a] == d;
    var b :| 0 <= b < |desired| && desired[b] == d';
    assert desired[a].identifier == desired[b].identifier;
  }

  lemma UpdatedMatches(els: Elements, prefix: string, known: map<string, Element>, d: DesiredElement)
    requires IsIndex(els, prefix, known) && d.identifier in known && SettlesFor(known, d)
    ensures var e := known[d.identifier];
            && e.id in els
            && Identifier(Updated(els, e, d)) == Some(d.identifier) && Agrees(Updated(els, e, d), d)
  {
    var e := known[d.identifier];
    ReadIdentifier(e.id, els[e.id]);
    UpdateIdentifier(known, e, d);
    UpdateAgrees(known, e, d);
    hide Identifier, UpdatePayload, OwnedFieldDiffers;
  }

  /** How an element of `els` comes out of a committed changeset. */
  lemma ExistingAfter(els: Elements, prefix: string, known: map<string, Element>, desired: seq<DesiredElement>,
                      m: Elements, i: string)
    requires IsIndex(els, prefix, known) && Suits(known, desired, prefix) && Keeps(els, known, desired, m) && i in els
    ensures i in m
    ensures !IsManaged(els[i], prefix) ==> m[i] == els[i]
    ensures IsManaged(els[i], prefix) && Identifier(els[i]).value !in Wanted(desired)
            ==> i in Dropped(known, Wanted(desired), InOrder(known.Keys))
    ensures IsManaged(els[i], prefix) && Identifier(els[i]).value in Wanted(desired)
            ==> Identifier(m[i]) == Identifier(els[i]) && MatchesSome(m[i], desired)
  {
    hide Identifier, UpdatePayload, OwnedFieldDiffers, Agrees, ReadElement, SettlesFor, Updated;
    if !IsManaged(els[i], prefix) {
      forall d | d in desired ensures !Targets(known, d, i) {
        if d.identifier in known && known[d.identifier].id == i {
          ManagedBy(els[i], prefix, d.identifier);
        }
      }
      assert Untargeted(known, desired, i);
    } else {
      ManagedIdentifier(els[i], prefix);
      var x := Identifier(els[i]).value;
      if x in Wanted(desired) {
        var d :| d in desired && d.identifier == x;
        UpdatedMatches(els, prefix, known, d);
      } else {
        assert x in InOrder(known.Keys);
      }
    }
  }

  lemma CreatedMatches(known: map<string, Element>, desired: seq<DesiredElement>, p: Payload, prefix: string)
    requires CreatedFor(known, desired, p) && Suits(known, desired, prefix)
    ensures IsManaged(p, prefix) && MatchesSome(p, desired) && Identifier(p).Some? && Identifier(p).value !in known
  {
    hide OwnedFieldDiffers, CreatePayload;
    var d :| d in desired && d.identifier !in known && p == CreatePayload(d);
    CreateIdentifier(d);
    CreateAgrees(known, d);
    ManagedBy(p, prefix, d.identifier);
  }

  /** A dropped id belongs to a managed element nobody wants. */
  lemma DroppedIds(els: Elements, prefix: string, known: map<string, Element>, wanted: set<string>, i: string)
    requires IsIndex(els, prefix, known) && i in Dropped(known, wanted, InOrder(known.Keys))
    ensures i in els && IsManaged(els[i], prefix) && Identifier(els[i]).value !in wanted
  {
    hide Identifier, ReadElement;
    var x :| x in InOrder(known.Keys) && x !in wanted && known[x].id == i;
    ManagedBy(els[i], prefix, x);
  }

  /** Everything unmanaged as it was, and the managed part equal to the desired set. */
  ghost predicate Achieved(els: Elements, after: Elements, prefix: string, desired: seq<DesiredElement>) {
    && (forall i :: i in els && !IsManaged(els[i], prefix) ==> i in after && after[i] == els[i])
    && Matches(after, prefix, desired)
  }

  /** The state a changeset with fresh ids leaves. */
  lemma FreshReconciles(els: Elements, next: nat, prefix: string, desired: seq<DesiredElement>,
                        changes: seq<DataVersion>)
    requires Fresh(els, next, ApplyAll(els, next, changes).1) && SuitsIn(els, prefix, desired)
    requires Diff(Managed(els, prefix), desired) == Ok(changes)
    ensures var (after, n) := ApplyAll(els, next, changes);
            && n >= next && NewIds(els, next, after, n)
            && (forall i :: i in after && i !in els ==> IsManaged(after[i], prefix))
            && Achieved(els, after, prefix, desired)
  {
    var known := ByIdentifier(Managed(els, prefix));
    NoDuplicates(Managed(els, prefix), desired);
    UniqueInSeq(els, prefix);
    ManagedIndex(els, prefix);
    DeletesApplied(els, next, ChangesFor(known, desired), known, Wanted(desired), InOrder(known.Keys));
    PlanApplied(els, next, prefix, known, desired);
    var m := ApplyAll(els, next, ChangesFor(known, desired)).0;
    hide *;
    Outcome(els, prefix, known, desired, m);
    FewerNewIds(els, next, m, ApplyAll(els, next, changes).0, ApplyAll(els, next, changes).1);
    AchievedIs(els, ApplyAll(els, next, changes).0, prefix, desired);
  }

  lemma AchievedIs(els: Elements, after: Elements, prefix: string, desired: seq<DesiredElement>)
    requires forall i :: i in els && !IsManaged(els[i], prefix) ==> i in after && after[i] == els[i]
    requires Matches(after, prefix, desired)
    ensures Achieved(els, after, prefix, desired)
  {
  }

  lemma FewerNewIds(els: Elements, next: nat, m: Elements, after: Elements, n: nat)
    requires NewIds(els, next, m, n) && after.Keys <= m.Keys
    ensures NewIds(els, next, after, n)
  {
    hide IssuedBetween;
  }

  /** The state a committed changeset leaves: everything unmanaged as it was, everything new
      managed and under a fresh id, and the managed part equal to the desired set. */
  lemma CommitReconciles(els: Elements, next: nat, prefix: string, desired: seq<DesiredElement>,
                         changes: seq<DataVersion>)
    requires IdsIssued(els, next) && SuitsIn(els, prefix, desired)
    requires Diff(Managed(els, prefix), desired) == Ok(changes)
    ensures var (after, n) := ApplyAll(els, next, changes);
            && IdsIssued(after, n)
            && (forall i :: i in els && !IsManaged(els[i], prefix) ==> i in after && after[i] == els[i])
            && (forall i :: i in after && i !in els ==> IsManaged(after[i], prefix))
            && Matches(after, prefix, desired)
  {
    var (after, n) := ApplyAll(els, next, changes);
    IssuedFresh(els, next, n);
    FreshReconciles(els, next, prefix, desired, changes);
    hide IdsIssued, NewIds, Matches, IsManaged, Managed, Diff, SuitsIn, ApplyAll;
    NewIdsIssued(els, next, after, n);
  }

  // ---------------------------------------------------------------- and exactly when

  /** Who holds a prefixed identifier after the creates and updates for `desired`. */
  ghost predicate Holders(prefix: string, known: map<string, Element>, desired: seq<DesiredElement>, m: Elements) {
    forall i :: i in m && IsManaged(m[i], prefix) ==> HolderOk(known, desired, i, Identifier(m[i]).value)
  }

  ghost predicate HolderOk(known: map<string, Element>, desired: seq<DesiredElement>, i: string, x: string) {
    if x in known then known[x].id == i else exists d :: d in desired && d.identifier == x
  }

  /** Nobody but `id` has the identifier. */
  ghost predicate OnlyAt(m: Elements, x: string, id: string) {
    forall i :: i in m && Identifier(m[i]) == Some(x) ==> i == id
  }

  /** One create or update keeps both facts. */
  lemma HoldersStep(els: Elements, prefix: string, known: map<string, Element>, before: seq<DesiredElement>,
                    d: DesiredElement, m: Elements, i: string, p: Payload)
    requires IsIndex(els, prefix, known) && Holders(prefix, known, before, m)
    requires Identifier(p) == Some(d.identifier) && (d.identifier in known ==> i == known[d.identifier].id)
    ensures Holders(prefix, known, before + [d], m[i := p])
    ensures forall x, id :: x != d.identifier && OnlyAt(m, x, id) ==> OnlyAt(m[i := p], x, id)
  {
    hide Identifier, IsIndex;
    var m' := m[i := p];
    forall k | k in m' && IsManaged(m'[k], prefix) ensures HolderOk(known, before + [d], k, Identifier(m'[k]).value) {
      assert d in before + [d] && forall b :: b in before ==> b in before + [d];
    }
  }

  lemma HoldersMore(prefix: string, known: map<string, Element>, before: seq<DesiredElement>, d: DesiredElement,
                    m: Elements)
    requires Holders(prefix, known, before, m)
    ensures Holders(prefix, known, before + [d], m)
  {
    hide Identifier, IsManaged;
    assert forall b :: b in before ==> b in before + [d];
  }

  /** The identifier an element gets from its change. */
  lemma ChangedIdentifier(els: Elements, prefix: string, known: map<string, Element>, d: DesiredElement)
    requires IsIndex(els, prefix, known) && SettlesFor(known, d)
    ensures d.identifier in known ==> Identifier(UpdatePayload(known[d.identifier], d)) == Some(d.identifier)
    ensures Identifier(CreatePayload(d)) == Some(d.identifier)
  {
    CreateIdentifier(d);
    if d.identifier in known {
      var e := known[d.identifier];
      ReadIdentifier(e.id, els[e.id]);
      UpdateIdentifier(known, e, d);
    }
  }

  lemma OriginStep(els: Elements, next: nat, prefix: string, known: map<string, Element>, before: seq<DesiredElement>,
                   d: DesiredElement, changes: seq<DataVersion>)
    requires IsIndex(els, prefix, known) && SettlesFor(known, d)
    requires Holders(prefix, known, before, ApplyAll(els, next, changes).0)
    ensures Holders(prefix, known, before + [d], ApplyAll(els, next, changes + ChangeFor(known, d)).0)
    ensures forall x, id :: x != d.identifier && OnlyAt(ApplyAll(els, next, changes).0, x, id)
              ==> OnlyAt(ApplyAll(els, next, changes + ChangeFor(known, d)).0, x, id)
  {
    var (m, n) := ApplyAll(els, next, changes);
    ChangedIdentifier(els, prefix, known, d);
    hide CreatePayload, UpdatePayload, OwnedFieldDiffers, ApplyAll, ElementId, Holders, OnlyAt, IsIndex, Identifier;
    if ChangeFor(known, d) == [] {
      assert changes + [] == changes;
      HoldersMore(prefix, known, before, d, m);
    } else {
      ApplySnoc(els, next, changes, ChangeFor(known, d)[0]);
      if d.identifier in known {
        HoldersStep(els, prefix, known, before, d, m, known[d.identifier].id, UpdatePayload(known[d.identifier], d));
      } else {
        HoldersStep(els, prefix, known, before, d, m, ElementId(n + 1), CreatePayload(d));
      }
    }
  }

  lemma OnlyAtStep(els: Elements, next: nat, prefix: string, known: map<string, Element>, before: seq<DesiredElement>,
                   d: DesiredElement, changes: seq<DataVersion>, x: string, id: string)
    requires IsIndex(els, prefix, known) && SettlesFor(known, d)
    requires Holders(prefix, known, before, ApplyAll(els, next, changes).0)
    requires x != d.identifier && OnlyAt(ApplyAll(els, next, changes).0, x, id)
    ensures OnlyAt(ApplyAll(els, next, changes + ChangeFor(known, d)).0, x, id)
  {
    hide *;
    OriginStep(els, next, prefix, known, before, d, changes);
  }

  lemma {:induction false} PlanOrigins(els: Elements, next: nat, prefix: string, known: map<string, Element>,
                                       desired: seq<DesiredElement>)
    requires IsIndex(els, prefix, known) && Suits(known, desired, prefix)
    ensures Holders(prefix, known, desired, ApplyAll(els, next, ChangesFor(known, desired)).0)
    decreases |desired|
  {
    if desired == [] {
      hide Identifier, ReadElement;
    } else {
      var before, d := desired[..|desired| - 1], desired[|desired| - 1];
      assert desired == before + [d];
      PlanOrigins(els, next, prefix, known, before);
      hide ApplyAll, IsIndex, Holders, SettlesFor;
      OriginStep(els, next, prefix, known, before, d, ChangesFor(known, before));
    }
  }

  /** The create that is issued `ElementId(j)`: nobody else ends up with its identifier. */
  lemma {:induction false} PlanCreates(els: Elements, next: nat, prefix: string, known: map<string, Element>,
                                       desired: seq<DesiredElement>, j: nat) returns (d: DesiredElement)
    requires IsIndex(els, prefix, known) && Suits(known, desired, prefix) && UniqueDesired(desired)
    requires desired != [] && next < j <= ApplyAll(els, next, ChangesFor(known, desired)).1
    ensures d in desired && d.identifier !in known
    ensures OnlyAt(ApplyAll(els, next, ChangesFor(known, desired)).0, d.identifier, ElementId(j))
    decreases |desired|
  {
    var before := desired[..|desired| - 1];
    hide *;
    if j <= ApplyAll(els, next, ChangesFor(known, before)).1 {
      NothingIssued(els, next, known);
      DesiredBefore(known, desired, prefix);
      d := PlanCreates(els, next, prefix, known, before, j);
      CreatesKept(els, next, prefix, known, desired, j, d);
    } else {
      d := desired[|desired| - 1];
      ChangesOfLast(known, desired);
      DesiredBefore(known, desired, prefix);
      PlanOrigins(els, next, prefix, known, before);
      CreatesLast(els, next, prefix, known, before, d, ChangesFor(known, before), j);
    }
  }

  lemma CreatesKept(els: Elements, next: nat, prefix: string, known: map<string, Element>, desired: seq<DesiredElement>,
                    j: nat, d: DesiredElement)
    requires IsIndex(els, prefix, known) && Suits(known, desired, prefix) && UniqueDesired(desired) && desired != []
    requires var before := desired[..|desired| - 1];
             d in before && OnlyAt(ApplyAll(els, next, ChangesFor(known, before)).0, d.identifier, ElementId(j))
    ensures d in desired && OnlyAt(ApplyAll(els, next, ChangesFor(known, desired)).0, d.identifier, ElementId(j))
  {
    var before, last := desired[..|desired| - 1], desired[|desired| - 1];
    hide *;
    ChangesOfLast(known, desired);
    DesiredBefore(known, desired, prefix);
    PlanOrigins(els, next, prefix, known, before);
    OnlyAtStep(els, next, prefix, known, before, last, ChangesFor(known, before), d.identifier, ElementId(j));
  }

  lemma CreatesLast(els: Elements, next: nat, prefix: string, known: map<string, Element>, before: seq<DesiredElement>,
                    d: DesiredElement, changes: seq<DataVersion>, j: nat)
    requires prefix <= d.identifier && forall b :: b in before ==> b.identifier != d.identifier
    requires Holders(prefix, known, before, ApplyAll(els, next, changes).0)
    requires ApplyAll(els, next, changes).1 < j <= ApplyAll(els, next, changes + ChangeFor(known, d)).1
    ensures d.identifier !in known
    ensures OnlyAt(ApplyAll(els, next, changes + ChangeFor(known, d)).0, d.identifier, ElementId(j))
  {
    hide *;
    CounterAfter(els, next, changes, known, d);
    NewHolder(els, next, prefix, known, before, d, changes);
  }

  lemma ChangesOfLast(known: map<string, Element>, desired: seq<DesiredElement>)
    requires desired != []
    ensures var before, last := desired[..|desired| - 1], desired[|desired| - 1];
            ChangesFor(known, desired) == ChangesFor(known, before) + ChangeFor(known, last)
  {
    hide ChangeFor;
  }

  lemma NothingIssued(els: Elements, next: nat, known: map<string, Element>)
    ensures ApplyAll(els, next, ChangesFor(known, [])).1 == next
  {
  }

  lemma DesiredBefore(known: map<string, Element>, desired: seq<DesiredElement>, prefix: string)
    requires desired != [] && Suits(known, desired, prefix) && UniqueDesired(desired)
    ensures var before, last := desired[..|desired| - 1], desired[|desired| - 1];
            && Suits(known, before, prefix) && UniqueDesired(before)
            && SettlesFor(known, last) && prefix <= last.identifier
            && forall b :: b in before ==> b.identifier != last.identifier
  {
    hide SettlesFor;
  }

  lemma NewHolder(els: Elements, next: nat, prefix: string, known: map<string, Element>, before: seq<DesiredElement>,
                  d: DesiredElement, changes: seq<DataVersion>)
    requires d.identifier !in known && prefix <= d.identifier
             && forall b :: b in before ==> b.identifier != d.identifier
    requires Holders(prefix, known, before, ApplyAll(els, next, changes).0)
    ensures OnlyAt(ApplyAll(els, next, changes + ChangeFor(known, d)).0, d.identifier,
                   ElementId(ApplyAll(els, next, changes).1 + 1))
  {
    var (m, n) := ApplyAll(els, next, changes);
    var id := ElementId(n + 1);
    hide ApplyAll, CreatePayload, Identifier, ElementId;
    ApplySnoc(els, next, changes, DataVersion(Some(CreatePayload(d)), None));
    forall i | i in m ensures Identifier(m[i]) != Some(d.identifier) {
      assert IsManaged(m[i], prefix) ==> HolderOk(known, before, i, Identifier(m[i]).value);
    }
  }

  /** A create issued an id in use loses its element, the one it replaced, or an unmanaged one. */
  lemma CollisionLoses(els: Elements, next: nat, prefix: string, desired: seq<DesiredElement>,
                       changes: seq<DataVersion>, j: nat)
    requires SuitsIn(els, prefix, desired) && Diff(Managed(els, prefix), desired) == Ok(changes)
    requires next < j <= ApplyAll(els, next, changes).1 && ElementId(j) in els
    ensures !Achieved(els, ApplyAll(els, next, changes).0, prefix, desired)
  {
    var known := ByIdentifier(Managed(els, prefix));
    NoDuplicates(Managed(els, prefix), desired);
    UniqueInSeq(els, prefix);
    ManagedIndex(els, prefix);
    DeletesApplied(els, next, ChangesFor(known, desired), known, Wanted(desired), InOrder(known.Keys));
    PlanOrigins(els, next, prefix, known, desired);
    NothingIssued(els, next, known);
    var d := PlanCreates(els, next, prefix, known, desired, j);
    var m := ApplyAll(els, next, ChangesFor(known, desired)).0;
    hide *;
    CollisionShows(els, prefix, known, desired, m, d, ElementId(j));
    assert ApplyAll(els, next, changes).0 == m - Dropped(known, Wanted(desired), InOrder(known.Keys));
  }

  lemma CollisionShows(els: Elements, prefix: string, known: map<string, Element>, desired: seq<DesiredElement>,
                       m: Elements, d: DesiredElement, id: string)
    requires IsIndex(els, prefix, known) && Suits(known, desired, prefix) && Holders(prefix, known, desired, m)
    requires d in desired && d.identifier !in known && OnlyAt(m, d.identifier, id) && id in els
    ensures !Achieved(els, m - Dropped(known, Wanted(desired), InOrder(known.Keys)), prefix, desired)
  {
    var dropped := Dropped(known, Wanted(desired), InOrder(known.Keys));
    var after := m - dropped;
    hide Identifier, ReadElement, SettlesFor, Dropped, IsManaged;
    if Achieved(els, after, prefix, desired) {
      assert HasElement(after, d);
      var i :| i in after && Identifier(after[i]) == Some(d.identifier);
      assert i == id;
      ManagedIdentifier(els[id], prefix);
      ManagedBy(after[id], prefix, d.identifier);
      if IsManaged(els[id], prefix) { ManagedOneLost(els, prefix, known, desired, m, d, id); }
    }
  }

  /** The managed element that the create replaced is gone. */
  lemma ManagedOneLost(els: Elements, prefix: string, known: map<string, Element>, desired: seq<DesiredElement>,
                       m: Elements, d: DesiredElement, id: string)
    requires IsIndex(els, prefix, known) && Suits(known, desired, prefix) && Holders(prefix, known, desired, m)
    requires d.identifier !in known && id in els && id in m && IsManaged(els[id], prefix)
             && Identifier(m[id]) == Some(d.identifier)
    requires id !in Dropped(known, Wanted(desired), InOrder(known.Keys))
    ensures exists w :: w in desired && !HasElement(m - Dropped(known, Wanted(desired), InOrder(known.Keys)), w)
  {
    var x := Identifier(els[id]).value;
    hide Identifier, ReadElement, SettlesFor;
    ManagedIdentifier(els[id], prefix);
    assert x in InOrder(known.Keys) && known[x].id == id;
    var w :| w in desired && w.identifier == x;
    var after := m - Dropped(known, Wanted(desired), InOrder(known.Keys));
    forall i | i in after ensures Identifier(after[i]) != Some(x) {
      assert IsManaged(m[i], prefix) ==> HolderOk(known, desired, i, Identifier(m[i]).value);
    }
  }

  /** A changeset does what it is for exactly when no id its creates are issued is in use. */
  lemma ReconcilesExactly(els: Elements, next: nat, prefix: string, desired: seq<DesiredElement>,
                          changes: seq<DataVersion>)
    requires SuitsIn(els, prefix, desired) && Diff(Managed(els, prefix), desired) == Ok(changes)
    ensures var (after, last) := ApplyAll(els, next, changes);
            Achieved(els, after, prefix, desired) <==> forall j: nat :: next < j <= last ==> ElementId(j) !in els
  {
    var last := ApplyAll(els, next, changes).1;
    hide Diff, Managed, SuitsIn, ApplyAll, ElementId, Achieved;
    if Fresh(els, next, last) {
      FreshReconciles(els, next, prefix, desired, changes);
    } else {
      var j: nat :| next < j <= last && ElementId(j) in els;
      CollisionLoses(els, next, prefix, desired, changes, j);
    }
  }

  lemma SubsetIssued(m: Elements, dropped: set<string>, n: nat)
    requires IdsIssued(m, n)
    ensures IdsIssued(m - dropped, n)
  {
    hide Issued;
  }

  lemma Outcome(els: Elements, prefix: string, known: map<string, Element>, desired: seq<DesiredElement>, m: Elements)
    requires IsIndex(els, prefix, known) && UniqueManaged(els, prefix) && Suits(known, desired, prefix)
    requires Keeps(els, known, desired, m) && Adds(els, known, desired, m)
    ensures var after := m - Dropped(known, Wanted(desired), InOrder(known.Keys));
            && (forall i :: i in els && !IsManaged(els[i], prefix) ==> i in after && after[i] == els[i])
            && (forall i :: i in after && i !in els ==> IsManaged(after[i], prefix))
            && Matches(after, prefix, desired)
  {
    var wanted, order := Wanted(desired), InOrder(known.Keys);
    var dropped := Dropped(known, wanted, order);
    var after := m - dropped;
    forall i | i in els && !IsManaged(els[i], prefix) ensures i in after && after[i] == els[i] {
      hide *;
      ExistingAfter(els, prefix, known, desired, m, i);
      if i in dropped { DroppedIds(els, prefix, known, wanted, i); }
    }
    forall i | i in after && i !in els ensures IsManaged(after[i], prefix) {
      hide IsManaged, CreatedFor, Dropped, IsIndex;
      CreatedMatches(known, desired, m[i], prefix);
    }
    forall i | i in after && IsManaged(after[i], prefix) ensures MatchesSome(after[i], desired) {
      hide IsManaged, CreatedFor, Dropped, MatchesSome, Identifier, IsIndex;
      if i in els {
        ExistingAfter(els, prefix, known, desired, m, i);
      } else {
        CreatedMatches(known, desired, m[i], prefix);
      }
    }
    forall d | d in desired ensures HasElement(after, d) {
      OutcomeHas(els, prefix, known, desired, m, d);
    }
    forall i, j | i in after && j in after && IsManaged(after[i], prefix)
      && Identifier(after[i]) == Identifier(after[j])
      ensures i == j
    {
      OutcomeUnique(els, prefix, known, desired, m, i, j);
    }
  }

  lemma OutcomeHas(els: Elements, prefix: string, known: map<string, Element>, desired: seq<DesiredElement>,
                   m: Elements, d: DesiredElement)
    requires IsIndex(els, prefix, known) && Suits(known, desired, prefix)
    requires Keeps(els, known, desired, m) && Adds(els, known, desired, m) && d in desired
    ensures HasElement(m - Dropped(known, Wanted(desired), InOrder(known.Keys)), d)
  {
    hide Identifier, IsManaged, CreatePayload, Updated, SettlesFor, Agrees, ReadElement, Dropped;
    var wanted := Wanted(desired);
    var dropped := Dropped(known, wanted, InOrder(known.Keys));
    var i: string;
    if d.identifier in known {
      i := known[d.identifier].id;
      UpdatedMatches(els, prefix, known, d);
      assert i in m && Identifier(m[i]) == Some(d.identifier);
    } else {
      assert HasCreated(els, m, d);
      i :| i in m && i !in els && m[i] == CreatePayload(d);
      CreateIdentifier(d);
    }
    if i in dropped { DroppedIds(els, prefix, known, wanted, i); }
    assert i in m - dropped && (m - dropped)[i] == m[i];
  }

  /** An element of the outcome that is managed there was managed before under the same
      identifier, or is new under an identifier that was unknown. */
  lemma OutcomeOrigin(els: Elements, prefix: string, known: map<string, Element>, desired: seq<DesiredElement>,
                      m: Elements, i: string)
    requires IsIndex(els, prefix, known) && Suits(known, desired, prefix)
    requires Keeps(els, known, desired, m) && Adds(els, known, desired, m)
    requires i in m && i !in Dropped(known, Wanted(desired), InOrder(known.Keys)) && IsManaged(m[i], prefix)
    ensures i in els ==> IsManaged(els[i], prefix) && Identifier(m[i]) == Identifier(els[i]) && Identifier(m[i]).Some?
                         && Identifier(m[i]).value in known
    ensures i !in els ==> Identifier(m[i]).Some? && Identifier(m[i]).value !in known
  {
    hide Identifier, IsManaged, CreatedFor, Dropped, ReadElement;
    if i in els {
      ExistingAfter(els, prefix, known, desired, m, i);
    } else {
      CreatedMatches(known, desired, m[i], prefix);
    }
  }

  lemma OutcomeUnique(els: Elements, prefix: string, known: map<string, Element>, desired: seq<DesiredElement>,
                      m: Elements, i: string, j: string)
    requires IsIndex(els, prefix, known) && UniqueManaged(els, prefix) && Suits(known, desired, prefix)
    requires Keeps(els, known, desired, m) && Adds(els, known, desired, m)
    requires var after := m - Dropped(known, Wanted(desired), InOrder(known.Keys));
             i in after && j in after && IsManaged(after[i], prefix) && Identifier(after[i]) == Identifier(after[j])
    ensures i == j
  {
    ManagedIdentifier(m[i], prefix);
    hide Identifier, IsManaged, CreatedFor, Dropped, IsIndex, Keeps;
    OutcomeOrigin(els, prefix, known, desired, m, i);
    OutcomeOrigin(els, prefix, known, desired, m, j);
  }

  /** A payload brought up to date with the desired element of its identifier. */
  ghost predicate UpdatedBySome(els: Elements, desired: seq<DesiredElement>, i: string, p: Payload)
    requires i in els
  {
    exists d :: d in desired && Identifier(els[i]) == Some(d.identifier) && p == Updated(els, ReadElement(i, els[i]), d)
  }

  ghost predicate CreatedBySome(desired: seq<DesiredElement>, p: Payload) {
    exists d :: d in desired && p == CreatePayload(d)
  }

  /** Where each managed element of a committed state comes from, and what became of the old ones. */
  lemma CommitElements(els: Elements, next: nat, prefix: string, desired: seq<DesiredElement>,
                       changes: seq<DataVersion>)
    requires IdsIssued(els, next) && SuitsIn(els, prefix, desired)
    requires Diff(Managed(els, prefix), desired) == Ok(changes)
    ensures var after := ApplyAll(els, next, changes).0;
            && (forall i :: i in after && IsManaged(after[i], prefix) ==>
                  if i in els then UpdatedBySome(els, desired, i, after[i]) else CreatedBySome(desired, after[i]))
            && (forall i, d :: i in els && d in desired && Identifier(els[i]) == Some(d.identifier) ==>
                  i in after && after[i] == Updated(els, ReadElement(i, els[i]), d))
  {
    var known := ByIdentifier(Managed(els, prefix));
    NoDuplicates(Managed(els, prefix), desired);
    UniqueInSeq(els, prefix);
    ManagedIndex(els, prefix);
    IssuedFresh(els, next, ApplyAll(els, next, ChangesFor(known, desired)).1);
    DeletesApplied(els, next, ChangesFor(known, desired), known, Wanted(desired), InOrder(known.Keys));
    PlanApplied(els, next, prefix, known, desired);
    var m := ApplyAll(els, next, ChangesFor(known, desired)).0;
    var after := m - Dropped(known, Wanted(desired), InOrder(known.Keys));
    assert ApplyAll(els, next, changes).0 == after;
    hide *;
    forall i, d | i in els && d in desired && Identifier(els[i]) == Some(d.identifier)
      ensures i in after && after[i] == Updated(els, ReadElement(i, els[i]), d)
    {
      WantedAfter(els, prefix, known, desired, m, i, d);
    }
    forall i | i in after && IsManaged(after[i], prefix)
      ensures if i in els then UpdatedBySome(els, desired, i, after[i]) else CreatedBySome(desired, after[i])
    {
      ManagedAfter(els, prefix, known, desired, m, i);
    }
  }

  lemma WantedAfter(els: Elements, prefix: string, known: map<string, Element>, desired: seq<DesiredElement>,
                    m: Elements, i: string, d: DesiredElement)
    requires IsIndex(els, prefix, known) && Suits(known, desired, prefix) && Keeps(els, known, desired, m)
    requires i in els && d in desired && Identifier(els[i]) == Some(d.identifier)
    ensures i in m - Dropped(known, Wanted(desired), InOrder(known.Keys))
            && m[i] == Updated(els, ReadElement(i, els[i]), d)
  {
    ManagedBy(els[i], prefix, d.identifier);
    hide Identifier, IsManaged, Updated, ReadElement, SettlesFor, Dropped;
    assert known[d.identifier].id == i;
    if i in Dropped(known, Wanted(desired), InOrder(known.Keys)) { DroppedIds(els, prefix, known, Wanted(desired), i); }
  }

  lemma ManagedAfter(els: Elements, prefix: string, known: map<string, Element>, desired: seq<DesiredElement>,
                     m: Elements, i: string)
    requires IsIndex(els, prefix, known) && Suits(known, desired, prefix)
    requires Keeps(els, known, desired, m) && Adds(els, known, desired, m)
    requires i in m && i !in Dropped(known, Wanted(desired), InOrder(known.Keys)) && IsManaged(m[i], prefix)
    ensures if i in els then UpdatedBySome(els, desired, i, m[i]) else CreatedBySome(desired, m[i])
  {
    hide Identifier, IsManaged, Updated, ReadElement, SettlesFor, Dropped, IsIndex, CreatePayload;
    OutcomeOrigin(els, prefix, known, desired, m, i);
    if i in els {
      ManagedIdentifier(els[i], prefix);
      ExistingAfter(els, prefix, known, desired, m, i);
      var d :| d in desired && d.identifier == Identifier(els[i]).value;
      hide Keeps, Adds;
      WantedAfter(els, prefix, known, desired, m, i, d);
    } else {
      assert CreatedFor(known, desired, m[i]);
    }
  }

  /** Committing a proposal and proposing the same desired set again finds nothing to change. */
  lemma SecondDiffEmpty(els: Elements, next: nat, prefix: string, desired: seq<DesiredElement>,
                        changes: seq<DataVersion>)
    requires IdsIssued(els, next) && SuitsIn(els, prefix, desired)
    requires Diff(Managed(els, prefix), desired) == Ok(changes)
    ensures Diff(Managed(ApplyAll(els, next, changes).0, prefix), desired) == Ok([])
  {
    NoDuplicates(Managed(els, prefix), desired);
    CommitReconciles(els, next, prefix, desired, changes);
    MatchesMeansNoChange(ApplyAll(els, next, changes).0, prefix, desired);
  }

  // ---------------------------------------------------------------- field by field

  /** Every owned field that the server kept has the desired value; on a server that keeps the
      `identifier` field, none is missing. */
  ghost predicate HasOwned(p: Payload, d: DesiredElement) {
    forall k :: k in d.fields ==>
      if k in p && k != "@id" && k != "@type" then p[k] == d.fields[k] else "identifier" !in p
  }

  /** What a full replacement of `p` is for `d`: the owned fields as desired; every other field of `p`,
      and no more; and the type it had. */
  ghost predicate Replaces(p: Payload, d: DesiredElement, q: Payload) {
    && (forall k :: k in d.fields ==> k in q && q[k] == d.fields[k])
    && (forall k :: k !in d.fields && k != "@id" && k != "@type" ==>
          (k in q <==> k in p) && (k in p ==> q[k] == p[k]))
    && "@type" in q && ("@type" !in d.fields ==> q["@type"] == Str(TypeIn(p)))
    && ("@id" !in d.fields ==> "@id" !in q)
  }

  /** The type a fetched element shows. */
  function TypeIn(p: Payload): string {
    if "@type" in p && p["@type"].Str? then p["@type"].s else ""
  }

  /** An element that is brought up to date only if an owned field is not as desired. */
  ghost predicate UpToDate(p: Payload, d: DesiredElement, q: Payload) {
    if HasOwned(p, d) then q == p else Replaces(p, d, q)
  }

  /** A created element: its type, its identifier as `identifier` and as the one alias, the owned fields,
      and nothing else. */
  ghost predicate Creates(d: DesiredElement, q: Payload) {
    && "@type" in q && q["@type"] == Str(d.ty)
    && "identifier" in q && q["identifier"] == Str(d.identifier)
    && "aliasIds" in q && q["aliasIds"] == Arr([Str(d.identifier)])
    && (forall k :: k in d.fields && k !in {"@type", "identifier", "aliasIds"} ==> k in q && q[k] == d.fields[k])
    && (forall k :: k in q ==> k in d.fields || k in {"@type", "identifier", "aliasIds"})
  }

  lemma CreateCreates(d: DesiredElement)
    ensures Creates(d, CreatePayload(d))
  {
  }

  lemma UpdatedUpToDate(els: Elements, i: string, d: DesiredElement)
    requires i in els
    ensures ReadElement(i, els[i]).id == i && UpToDate(els[i], d, Updated(els, ReadElement(i, els[i]), d))
  {
    var e := ReadElement(i, els[i]);
    OwnedExactly(i, els[i], d);
    if !HasOwned(els[i], d) { UpdateReplaces(i, els[i], d); }
    hide UpdatePayload, OwnedFieldDiffers, HasOwned, Replaces;
  }

  lemma OwnedExactly(i: string, p: Payload, d: DesiredElement)
    ensures OwnedFieldDiffers(ReadElement(i, p).fields, d) <==> !HasOwned(p, d)
  {
    var f := ReadElement(i, p).fields;
    assert forall k :: k in f <==> k in p && k != "@id" && k != "@type";
    assert "identifier" in f <==> "identifier" in p;
  }

  lemma UpdateReplaces(i: string, p: Payload, d: DesiredElement)
    ensures Replaces(p, d, UpdatePayload(ReadElement(i, p), d))
  {
    var e := ReadElement(i, p);
    assert e.ty == TypeIn(p);
    assert forall k :: k in e.fields <==> k in p && k != "@id" && k != "@type";
  }

  /** The element has the desired identifier and is under the prefix. */
  ghost predicate Bears(els: Elements, prefix: string, i: string, d: DesiredElement) {
    i in els && IsManaged(els[i], prefix) && Identifier(els[i]) == Some(d.identifier)
  }

  /** What a commit leaves of the elements that were there: those outside the prefix as they were; of
      those inside, the wanted ones up to date, and no others. */
  ghost predicate Leaves(els: Elements, prefix: string, desired: seq<DesiredElement>, after: Elements) {
    && (forall i :: i in els && !IsManaged(els[i], prefix) ==> i in after && after[i] == els[i])
    && (forall i :: i in els && IsManaged(els[i], prefix) && i in after ==>
    exists d :: d in desired && Bears(els, prefix, i, d))
    && (forall i, d :: d in desired && Bears(els, prefix, i, d) ==> i in after && UpToDate(els[i], d, after[i]))
  }

  /** What it adds: one created element for each desired one that was not there, and no others. */
  ghost predicate Brings(els: Elements, prefix: string, desired: seq<DesiredElement>, after: Elements) {
    && (forall i :: i in after && i !in els ==> CreatedAnew(els, prefix, desired, after[i]))
    && (forall d :: d in desired && (forall i :: !Bears(els, prefix, i, d)) ==>
          exists i :: i in after && i !in els && Creates(d, after[i]))
  }

  ghost predicate CreatedAnew(els: Elements, prefix: string, desired: seq<DesiredElement>, q: Payload) {
    exists d :: d in desired && (forall i :: !Bears(els, prefix, i, d)) && Creates(d, q)
  }

  /** The elements after a commit, field by field, for any desired set. */
  lemma CommitLeaves(els: Elements, next: nat, prefix: string, desired: seq<DesiredElement>, changes: seq<DataVersion>)
    requires IdsIssued(els, next) && Diff(Managed(els, prefix), desired) == Ok(changes)
    ensures var after := ApplyAll(els, next, changes).0;
            Leaves(els, prefix, desired, after) && Brings(els, prefix, desired, after)
  {
    var known := ByIdentifier(Managed(els, prefix));
    NoDuplicates(Managed(els, prefix), desired);
    UniqueInSeq(els, prefix);
    ManagedIndex(els, prefix);
    KnownWithinPrefix(els, prefix);
    IssuedFresh(els, next, ApplyAll(els, next, ChangesFor(known, desired)).1);
    DeletesApplied(els, next, ChangesFor(known, desired), known, Wanted(desired), InOrder(known.Keys));
    PlanApplied(els, next, prefix, known, desired);
    var m := ApplyAll(els, next, ChangesFor(known, desired)).0;
    assert ApplyAll(els, next, changes).0 == m - Dropped(known, Wanted(desired), InOrder(known.Keys));
    hide *;
    PlanLeaves(els, prefix, known, desired, m);
    PlanBrings(els, prefix, known, desired, m);
  }

  /** Being in the index is being borne by a managed element. */
  lemma KnownIsBorne(els: Elements, prefix: string, known: map<string, Element>, d: DesiredElement)
    requires IsIndex(els, prefix, known)
    ensures d.identifier in known <==> exists i :: Bears(els, prefix, i, d)
    ensures d.identifier in known ==> Bears(els, prefix, known[d.identifier].id, d)
    ensures forall i :: Bears(els, prefix, i, d) ==>
            d.identifier in known && known[d.identifier] == ReadElement(i, els[i])
                                                     && known[d.identifier].id == i
  {
    hide Identifier, IsManaged, ReadElement;
    if d.identifier in known {
      ManagedBy(els[known[d.identifier].id], prefix, d.identifier);
      assert Bears(els, prefix, known[d.identifier].id, d);
    }
  }

  lemma PlanLeaves(els: Elements, prefix: string, known: map<string, Element>, desired: seq<DesiredElement>,
                   m: Elements)
    requires IsIndex(els, prefix, known) && Keeps(els, known, desired, m)
    ensures Leaves(els, prefix, desired, m - Dropped(known, Wanted(desired), InOrder(known.Keys)))
  {
    var dropped := Dropped(known, Wanted(desired), InOrder(known.Keys));
    var after := m - dropped;
    hide Identifier, IsManaged, ReadElement, Updated, UpToDate, Keeps, IsIndex, Dropped, Bears;
    forall i | i in els && !IsManaged(els[i], prefix) ensures i in after && after[i] == els[i] {
      UnmanagedLeft(els, prefix, known, desired, m, i);
    }
    forall i | i in els && IsManaged(els[i], prefix) && i in after
      ensures exists d :: d in desired && Bears(els, prefix, i, d) {
      LeftIsWanted(els, prefix, known, desired, i);
    }
    forall i, d | d in desired && Bears(els, prefix, i, d) ensures i in after && UpToDate(els[i], d, after[i]) {
      WantedLeft(els, prefix, known, desired, m, i, d);
    }
  }

  lemma UnmanagedLeft(els: Elements, prefix: string, known: map<string, Element>, desired: seq<DesiredElement>,
                      m: Elements, i: string)
    requires IsIndex(els, prefix, known) && Keeps(els, known, desired, m) && i in els && !IsManaged(els[i], prefix)
    ensures i in m && i !in Dropped(known, Wanted(desired), InOrder(known.Keys)) && m[i] == els[i]
  {
    hide Identifier, IsManaged, ReadElement, Updated;
    forall d | d in desired ensures !Targets(known, d, i) {
      if d.identifier in known { ManagedBy(els[known[d.identifier].id], prefix, d.identifier); }
    }
    assert Untargeted(known, desired, i);
    if i in Dropped(known, Wanted(desired), InOrder(known.Keys)) { DroppedIds(els, prefix, known, Wanted(desired), i); }
  }

  lemma LeftIsWanted(els: Elements, prefix: string, known: map<string, Element>, desired: seq<DesiredElement>,
                     i: string)
    requires IsIndex(els, prefix, known) && i in els && IsManaged(els[i], prefix)
    requires i !in Dropped(known, Wanted(desired), InOrder(known.Keys))
    ensures exists d :: d in desired && Bears(els, prefix, i, d)
  {
    hide Identifier, IsManaged, ReadElement;
    ManagedIdentifier(els[i], prefix);
    var x := Identifier(els[i]).value;
    assert x in InOrder(known.Keys) && known[x].id == i;
    assert x in Wanted(desired);
    var d :| d in desired && d.identifier == x;
    assert Bears(els, prefix, i, d);
  }

  lemma WantedLeft(els: Elements, prefix: string, known: map<string, Element>, desired: seq<DesiredElement>,
                   m: Elements, i: string, d: DesiredElement)
    requires IsIndex(els, prefix, known) && Keeps(els, known, desired, m) && d in desired && Bears(els, prefix, i, d)
    ensures i in m && i !in Dropped(known, Wanted(desired), InOrder(known.Keys)) && UpToDate(els[i], d, m[i])
  {
    KnownIsBorne(els, prefix, known, d);
    UpdatedUpToDate(els, i, d);
    hide Identifier, IsManaged, ReadElement, Updated, UpToDate, IsIndex;
    if i in Dropped(known, Wanted(desired), InOrder(known.Keys)) { DroppedIds(els, prefix, known, Wanted(desired), i); }
  }

  lemma PlanBrings(els: Elements, prefix: string, known: map<string, Element>, desired: seq<DesiredElement>,
                   m: Elements)
    requires IsIndex(els, prefix, known) && Adds(els, known, desired, m)
    ensures Brings(els, prefix, desired, m - Dropped(known, Wanted(desired), InOrder(known.Keys)))
  {
    var after := m - Dropped(known, Wanted(desired), InOrder(known.Keys));
    hide Identifier, IsManaged, ReadElement, CreatePayload, Creates, IsIndex, Dropped, Bears;
    forall i | i in after && i !in els ensures CreatedAnew(els, prefix, desired, after[i]) {
      assert CreatedFor(known, desired, m[i]);
      var d :| d in desired && d.identifier !in known && m[i] == CreatePayload(d);
      KnownIsBorne(els, prefix, known, d);
      CreateCreates(d);
    }
    forall d | d in desired && (forall i :: !Bears(els, prefix, i, d))
      ensures exists i :: i in after && i !in els && Creates(d, after[i]) {
      KnownIsBorne(els, prefix, known, d);
      var i := CreatedKept(els, prefix, known, desired, m, d);
      CreateCreates(d);
    }
  }

  lemma {:induction false} ChangesOfEach(known: map<string, Element>, desired: seq<DesiredElement>, d: DesiredElement)
    requires d in desired
    ensures forall c :: c in ChangeFor(known, d) ==> c in ChangesFor(known, desired)
  {
    hide ChangeFor;
    var before, last := desired[..|desired| - 1], desired[|desired| - 1];
    assert desired == before + [last];
    if d in before { ChangesOfEach(known, before, d); }
  }

  lemma KnownWithinPrefix(els: Elements, prefix: string)
    ensures forall x :: x in ByIdentifier(Managed(els, prefix)) ==> prefix <= x
  {
    var r := Managed(els, prefix);
    ByIdentifierKeys(r);
    hide Managed, ByIdentifier, Identifier, ReadElement;
    forall x | x in ByIdentifier(r) ensures prefix <= x {
      var k :| 0 <= k < |r| && r[k] == ByIdentifier(r)[x];
      ManagedAt(els, prefix, k);
      ManagedIdentifier(els[r[k].id], prefix);
    }
  }

  /** A desired element outside the prefix is created by every diff, whatever the server holds. */
  lemma OutsideCreatedAgain(els: Elements, prefix: string, desired: seq<DesiredElement>, changes: seq<DataVersion>,
                            d: DesiredElement)
    requires Diff(Managed(els, prefix), desired) == Ok(changes)
    requires d in desired && !(prefix <= d.identifier)
    ensures DataVersion(Some(CreatePayload(d)), None) in changes
  {
    var known := ByIdentifier(Managed(els, prefix));
    KnownWithinPrefix(els, prefix);
    ChangesOfEach(known, desired, d);
    hide ByIdentifier, Managed, CreatePayload, Duplicates;
  }

  /** On a server that keeps the `identifier` field, an owned `@id` or `@type`, or an owned identifier
      that is another's, is written again by every diff. */
  lemma ReservedNeverSettles(els: Elements, prefix: string, desired: seq<DesiredElement>, changes: seq<DataVersion>,
                             d: DesiredElement)
    requires Diff(Managed(els, prefix), desired) == Ok(changes)
    requires forall i :: i in els && IsManaged(els[i], prefix) ==> "identifier" in els[i]
    requires d in desired
    requires "@id" in d.fields || "@type" in d.fields || OwnsOtherIdentifier(d)
    ensures changes != []
  {
    var r := Managed(els, prefix);
    var known := ByIdentifier(r);
    ByIdentifierKeys(r);
    ChangesOfEach(known, desired, d);
    if d.identifier in known {
      var k :| 0 <= k < |r| && r[k] == known[d.identifier];
      ManagedAt(els, prefix, k);
      ReservedDiffers(known[d.identifier], els[r[k].id], d);
    }
    hide OwnedFieldDiffers, CreatePayload, UpdatePayload, OwnsOtherIdentifier;
    assert ChangeFor(known, d) != [] && ChangeFor(known, d)[0] in ChangesFor(known, desired);
  }

  predicate OwnsOtherIdentifier(d: DesiredElement) {
    "identifier" in d.fields && d.fields["identifier"].Str? && d.fields["identifier"].s != d.identifier
  }

  lemma ReservedDiffers(e: Element, p: Payload, d: DesiredElement)
    requires e == ReadElement(e.id, p) && "identifier" in p && Identifier(e.fields) == Some(d.identifier)
    requires "@id" in d.fields || "@type" in d.fields || OwnsOtherIdentifier(d)
    ensures OwnedFieldDiffers(e.fields, d)
  {
    assert "identifier" in e.fields && "@id" !in e.fields && "@type" !in e.fields;
    if OwnsOtherIdentifier(d) { assert e.fields["identifier"] != d.fields["identifier"]; }
  }

  // ---------------------------------------------------------------- what a commit leaves in the payloads

  lemma {:induction false} AfterPayload(els: Elements, next: nat, changes: seq<DataVersion>, i: string)
    requires i in ApplyAll(els, next, changes).0
    ensures var m := ApplyAll(els, next, changes).0;
            (i in els && m[i] == els[i]) || exists c :: c in changes && c.payload == Some(m[i])
    decreases |changes|
  {
    if changes != [] {
      var rest, c := changes[..|changes| - 1], changes[|changes| - 1];
      assert changes == rest + [c] && c in changes;
      hide ApplyAll, ElementId;
      ApplySnoc(els, next, rest, c);
      var before, m := ApplyAll(els, next, rest).0, ApplyAll(els, next, changes).0;
      if i in before && m[i] == before[i] {
        AfterPayload(els, next, rest, i);
        assert forall x :: x in rest ==> x in changes;
      }
    }
  }

  /** A payload the diff writes: a created element, or an element brought up to date. */
  ghost predicate FromDesired(existing: seq<Element>, desired: seq<DesiredElement>, p: Payload) {
    exists d :: d in desired && (p == CreatePayload(d) || UpdatesSome(existing, d, p))
  }

  ghost predicate UpdatesSome(existing: seq<Element>, d: DesiredElement, p: Payload) {
    exists e :: e in existing && p == UpdatePayload(e, d)
  }

  lemma {:induction false} ChangePayloads(existing: seq<Element>, known: map<string, Element>,
                                          desired: seq<DesiredElement>)
    requires forall x :: x in known ==> known[x] in existing
    ensures forall c :: c in ChangesFor(known, desired) ==>
            c.payload.Some? && FromDesired(existing, desired, c.payload.value)
    decreases |desired|
  {
    hide CreatePayload, UpdatePayload, OwnedFieldDiffers;
    if desired != [] {
      var rest, d := desired[..|desired| - 1], desired[|desired| - 1];
      assert desired == rest + [d] && d in desired;
      ChangePayloads(existing, known, rest);
      forall c | c in ChangesFor(known, desired)
        ensures c.payload.Some? && FromDesired(existing, desired, c.payload.value) {
        if c in ChangesFor(known, rest) {
          var b :| b in rest && (c.payload.value == CreatePayload(b) || UpdatesSome(existing, b, c.payload.value));
          assert b in desired;
        } else {
          assert c in ChangeFor(known, d);
          if d.identifier in known { assert UpdatesSome(existing, d, c.payload.value); }
        }
      }
    }
  }

  lemma DiffPayloads(existing: seq<Element>, desired: seq<DesiredElement>, changes: seq<DataVersion>)
    requires Diff(existing, desired) == Ok(changes)
    ensures forall c :: c in changes && c.payload.Some? ==> FromDesired(existing, desired, c.payload.value)
  {
    var known := ByIdentifier(existing);
    ByIdentifierKeys(existing);
    ChangePayloads(existing, known, desired);
    DeletesContract(known, Wanted(desired), InOrder(known.Keys));
    hide ChangesFor, DeletesFor, ByIdentifier, Identifier, InOrder, Duplicates, FromDesired;
  }

  /** Every element under the prefix is known by its `identifier` field. */
  ghost predicate AllKeepStrings(m: Elements, prefix: string) {
    forall i :: i in m && IsManaged(m[i], prefix) ==> KeepsString(m[i])
  }

  /** An owned `identifier` is a string. */
  predicate StringIdentifiers(desired: seq<DesiredElement>) {
    forall d :: d in desired && "identifier" in d.fields ==> d.fields["identifier"].Str?
  }

  lemma CommitKeepsStrings(els: Elements, next: nat, prefix: string, desired: seq<DesiredElement>,
                           changes: seq<DataVersion>)
    requires AllKeepStrings(els, prefix) && StringIdentifiers(desired)
    requires Diff(Managed(els, prefix), desired) == Ok(changes)
    ensures AllKeepStrings(ApplyAll(els, next, changes).0, prefix)
  {
    var m := ApplyAll(els, next, changes).0;
    DiffPayloads(Managed(els, prefix), desired, changes);
    ManagedMembers(els, prefix);
    hide Diff, Managed, ApplyAll, IsManaged, ReadElement, KeepsString, FromDesired;
    forall i | i in m && IsManaged(m[i], prefix) ensures KeepsString(m[i]) {
      AfterPayload(els, next, changes, i);
      if !(i in els && m[i] == els[i]) {
        var x :| x in changes && x.payload == Some(m[i]);
        WrittenKeepsString(els, Managed(els, prefix), desired, m[i]);
      }
    }
  }

  lemma WrittenKeepsString(els: Elements, existing: seq<Element>, desired: seq<DesiredElement>, p: Payload)
    requires forall e :: e in existing ==> e.id in els && e == ReadElement(e.id, els[e.id]) && KeepsString(els[e.id])
    requires StringIdentifiers(desired) && FromDesired(existing, desired, p)
    ensures KeepsString(p)
  {
    var d :| d in desired && (p == CreatePayload(d) || UpdatesSome(existing, d, p));
    if p != CreatePayload(d) {
      var e :| e in existing && p == UpdatePayload(e, d);
      assert KeepsString(els[e.id]) && KeepsString(e.fields);
    }
  }

  /** What an empty diff says of each desired element. */
  lemma EmptyDiffMeans(m: Elements, prefix: string, desired: seq<DesiredElement>, d: DesiredElement)
    requires Diff(Managed(m, prefix), desired) == Ok([]) && AllKeepStrings(m, prefix) && StringIdentifiers(desired)
    requires d in desired
    ensures prefix <= d.identifier && "@id" !in d.fields && "@type" !in d.fields
    ensures "identifier" in d.fields ==> d.fields["identifier"] == Str(d.identifier)
  {
    hide Diff, Managed, CreatePayload;
    if !(prefix <= d.identifier) { OutsideCreatedAgain(m, prefix, desired, [], d); }
    if "@id" in d.fields || "@type" in d.fields || OwnsOtherIdentifier(d) {
      forall i | i in m && IsManaged(m[i], prefix) ensures "identifier" in m[i] { assert KeepsString(m[i]); }
      ReservedNeverSettles(m, prefix, desired, [], d);
      assert false;
    }
  }

  /** An empty diff leaves no managed element that differs from the desired one of its identifier. */
  lemma EmptyDiffAgrees(m: Elements, prefix: string, desired: seq<DesiredElement>, d: DesiredElement, i: string)
    requires Diff(Managed(m, prefix), desired) == Ok([]) && d in desired && prefix <= d.identifier
    requires i in m && Identifier(m[i]) == Some(d.identifier)
    ensures Agrees(m[i], d)
  {
    var known := ByIdentifier(Managed(m, prefix));
    NoDuplicates(Managed(m, prefix), desired);
    UniqueInSeq(m, prefix);
    ManagedIndex(m, prefix);
    ManagedBy(m[i], prefix, d.identifier);
    ChangesOfEach(known, desired, d);
    hide Identifier, IsManaged, OwnedFieldDiffers, UpdatePayload, CreatePayload, Managed;
    assert known[d.identifier] == ReadElement(i, m[i]);
    if ChangeFor(known, d) != [] { assert ChangeFor(known, d)[0] in ChangesFor(known, desired); }
  }

  /** The create of an unknown desired element is there after the commit. */
  lemma CreatedThere(els: Elements, next: nat, prefix: string, desired: seq<DesiredElement>, changes: seq<DataVersion>,
                     d: DesiredElement) returns (i: string)
    requires IdsIssued(els, next) && Diff(Managed(els, prefix), desired) == Ok(changes)
    requires d in desired && d.identifier !in ByIdentifier(Managed(els, prefix))
    ensures var m := ApplyAll(els, next, changes).0; i in m && m[i] == CreatePayload(d)
  {
    var known := ByIdentifier(Managed(els, prefix));
    NoDuplicates(Managed(els, prefix), desired);
    UniqueInSeq(els, prefix);
    ManagedIndex(els, prefix);
    IssuedFresh(els, next, ApplyAll(els, next, ChangesFor(known, desired)).1);
    DeletesApplied(els, next, ChangesFor(known, desired), known, Wanted(desired), InOrder(known.Keys));
    PlanApplied(els, next, prefix, known, desired);
    var m := ApplyAll(els, next, ChangesFor(known, desired)).0;
    i := CreatedKept(els, prefix, known, desired, m, d);
  }

  lemma CreatedKept(els: Elements, prefix: string, known: map<string, Element>, desired: seq<DesiredElement>,
                    m: Elements, d: DesiredElement) returns (i: string)
    requires IsIndex(els, prefix, known) && Adds(els, known, desired, m) && d in desired && d.identifier !in known
    ensures i in m - Dropped(known, Wanted(desired), InOrder(known.Keys)) && i !in els && m[i] == CreatePayload(d)
  {
    hide CreatePayload, Identifier, IsManaged;
    assert HasCreated(els, m, d);
    i :| i in m && i !in els && m[i] == CreatePayload(d);
    if i in Dropped(known, Wanted(desired), InOrder(known.Keys)) { DroppedIds(els, prefix, known, Wanted(desired), i); }
  }

  /** After a commit, proposing the same again finds nothing to change exactly when every desired element
      is inside the prefix and settles. */
  lemma SecondDiffEmptyExactly(els: Elements, next: nat, prefix: string, desired: seq<DesiredElement>,
                               changes: seq<DataVersion>)
    requires IdsIssued(els, next) && AllKeepStrings(els, prefix) && StringIdentifiers(desired)
    requires Diff(Managed(els, prefix), desired) == Ok(changes)
    ensures Diff(Managed(ApplyAll(els, next, changes).0, prefix), desired) == Ok([]) <==> SuitsIn(els, prefix, desired)
  {
    var after := ApplyAll(els, next, changes).0;
    hide *;
    if SuitsIn(els, prefix, desired) {
      SecondDiffEmpty(els, next, prefix, desired, changes);
    } else if Diff(Managed(after, prefix), desired) == Ok([]) {
      EmptyMeansSuits(els, next, prefix, desired, changes);
    }
  }

  lemma EmptyMeansSuits(els: Elements, next: nat, prefix: string, desired: seq<DesiredElement>,
                        changes: seq<DataVersion>)
    requires IdsIssued(els, next) && AllKeepStrings(els, prefix) && StringIdentifiers(desired)
    requires Diff(Managed(els, prefix), desired) == Ok(changes)
    requires Diff(Managed(ApplyAll(els, next, changes).0, prefix), desired) == Ok([])
    ensures SuitsIn(els, prefix, desired)
  {
    var after, known := ApplyAll(els, next, changes).0, ByIdentifier(Managed(els, prefix));
    CommitKeepsStrings(els, next, prefix, desired, changes);
    hide Diff, Managed, ByIdentifier, ApplyAll, IdsIssued, AllKeepStrings, StringIdentifiers, CreatePayload,
      KeepsString, Agrees;
    forall d | d in desired ensures prefix <= d.identifier && SettlesFor(known, d) {
      EmptyDiffMeans(after, prefix, desired, d);
      if d.identifier in known {
        KnownKeepsString(els, prefix, d.identifier);
      } else {
        var i := CreatedThere(els, next, prefix, desired, changes, d);
        CreateIdentifier(d);
        EmptyDiffAgrees(after, prefix, desired, d, i);
        CreatedAliases(d);
      }
    }
  }

  lemma KnownKeepsString(els: Elements, prefix: string, x: string)
    requires AllKeepStrings(els, prefix) && x in ByIdentifier(Managed(els, prefix))
    ensures KeepsString(ByIdentifier(Managed(els, prefix))[x].fields)
  {
    var r := Managed(els, prefix);
    ByIdentifierKeys(r);
    hide Managed, ByIdentifier, Identifier;
    var k :| 0 <= k < |r| && r[k] == ByIdentifier(r)[x];
    ManagedAt(els, prefix, k);
    assert KeepsString(els[r[k].id]);
  }

  lemma CreatedAliases(d: DesiredElement)
    requires Agrees(CreatePayload(d), d)
    ensures "aliasIds" in d.fields ==> d.fields["aliasIds"] == Arr([Str(d.identifier)])
  {
    var p := CreatePayload(d) - {"@id", "@type"};
    assert "aliasIds" in p && p["aliasIds"] == Arr([Str(d.identifier)]);
  }

  /** For a desired set inside the prefix, the managed part becomes the desired set exactly when every
      element settles. */
  lemma CommitReconcilesExactly(els: Elements, next: nat, prefix: string, desired: seq<DesiredElement>,
                                changes: seq<DataVersion>)
    requires IdsIssued(els, next) && AllKeepStrings(els, prefix) && StringIdentifiers(desired)
    requires Diff(Managed(els, prefix), desired) == Ok(changes) && InPrefix(desired, prefix)
    ensures Matches(ApplyAll(els, next, changes).0, prefix, desired) <==> SuitsIn(els, prefix, desired)
  {
    NoDuplicates(Managed(els, prefix), desired);
    hide Managed, ApplyAll, Matches, IdsIssued, AllKeepStrings, StringIdentifiers, SuitsIn, InPrefix;
    if SuitsIn(els, prefix, desired) {
      CommitReconciles(els, next, prefix, desired, changes);
    } else if Matches(ApplyAll(els, next, changes).0, prefix, desired) {
      MatchesMeansNoChange(ApplyAll(els, next, changes).0, prefix, desired);
      SecondDiffEmptyExactly(els, next, prefix, desired, changes);
    }
  }

  // ---------------------------------------------------------------- the diff's own contract

  lemma {:induction false} ChangesContract(known: map<string, Element>, desired: seq<DesiredElement>)
    ensures forall c :: c in ChangesFor(known, desired) ==>
              c.payload.Some? && (c.identity.Some? ==> exists x :: x in known && known[x].id == c.identity.value)
  {
    if desired != [] {
      ChangesContract(known, desired[..|desired| - 1]);
      hide CreatePayload, UpdatePayload, OwnedFieldDiffers;
    }
  }

  lemma {:induction false} DeletesContract(known: map<string, Element>, wanted: set<string>, order: seq<string>)
    requires forall x :: x in order ==> x in known
    ensures forall c :: c in DeletesFor(known, wanted, order) ==>
              c.payload.None? && c.identity.Some? && exists x :: x in known && known[x].id == c.identity.value
  {
    if order != [] { DeletesContract(known, wanted, order[..|order| - 1]); }
  }

  /** A changeset names only elements it was computed from; a create names none, and a delete
      carries no payload. */
  lemma DiffContract(existing: seq<Element>, desired: seq<DesiredElement>, changes: seq<DataVersion>)
    requires Diff(existing, desired) == Ok(changes)
    ensures forall c :: c in changes ==> c.payload.Some? || c.identity.Some?
    ensures forall c :: c in changes && c.identity.Some? ==> exists e :: e in existing && e.id == c.identity.value
  {
    var known := ByIdentifier(existing);
    ByIdentifierKeys(existing);
    ChangesContract(known, desired);
    DeletesContract(known, Wanted(desired), InOrder(known.Keys));
    hide ChangesFor, DeletesFor, ByIdentifier, Identifier, InOrder, Duplicates;
    forall c | c in changes && c.identity.Some? ensures exists e :: e in existing && e.id == c.identity.value {
      var x :| x in known && known[x].id == c.identity.value;
      assert known[x] in existing;
    }
  }

  lemma DiffGrounded(els: Elements, prefix: string, desired: seq<DesiredElement>, changes: seq<DataVersion>)
    requires Diff(Managed(els, prefix), desired) == Ok(changes)
    ensures forall c :: c in changes && c.identity.Some? ==> c.identity.value in els
  {
    DiffContract(Managed(els, prefix), desired, changes);
    ManagedMembers(els, prefix);
    hide Managed, Diff, ReadElement;
    forall c | c in changes && c.identity.Some? ensures c.identity.value in els {
      var e :| e in Managed(els, prefix) && e.id == c.identity.value;
    }
  }

  // ---------------------------------------------------------------- the order of the diff

  /** `e` is the element with identifier `x`. */
  predicate Has(existing: seq<Element>, x: string, e: Element) {
    e in existing && Identifier(e.fields) == Some(x)
  }

  /** An element there already is as desired. */
  ghost predicate Settled(existing: seq<Element>, d: DesiredElement) {
    exists e :: Has(existing, d.identifier, e)
                && forall k :: k in d.fields ==>
                     if k in e.fields then e.fields[k] == d.fields[k] else "identifier" !in e.fields
  }

  /** The change brings `d` about: a create if no element has its identifier, else a replacement. */
  ghost predicate Serves(existing: seq<Element>, d: DesiredElement, c: DataVersion) {
    && c.payload.Some?
    && if c.identity.None? then Creates(d, c.payload.value) && forall e :: !Has(existing, d.identifier, e)
       else exists e :: Has(existing, d.identifier, e) && c.identity.value == e.id
  }

  ghost predicate Removes(existing: seq<Element>, x: string, c: DataVersion) {
    c.payload.None? && exists e :: Has(existing, x, e) && c.identity == Some(e.id)
  }

  /** One change for each position in `at`, and these are the positions, in order, of what is not yet as
      desired. */
  ghost predicate ServesAt(existing: seq<Element>, desired: seq<DesiredElement>, changes: seq<DataVersion>,
                           at: seq<nat>) {
    && |at| == |changes|
    && (forall k :: 0 <= k < |at| ==> at[k] < |desired| && Serves(existing, desired[at[k]], changes[k]))
    && (forall j, k :: 0 <= j < k < |at| ==> at[j] < at[k])
    && (forall i :: 0 <= i < |desired| ==> (i in at <==> !Settled(existing, desired[i])))
  }

  /** One delete for each of `xs`. */
  ghost predicate RemovesAll(existing: seq<Element>, changes: seq<DataVersion>, xs: seq<string>) {
    |xs| == |changes| && forall k :: 0 <= k < |xs| ==> Removes(existing, xs[k], changes[k])
  }

  /** The identifiers of what is there and no longer wanted, in order. */
  ghost predicate Unwanted(existing: seq<Element>, desired: seq<DesiredElement>, xs: seq<string>) {
    && StrictlySorted(xs, StrKey)
    && forall x :: x in xs <==> (exists e :: Has(existing, x, e)) && forall d :: d in desired ==> d.identifier != x
  }

  lemma ServesOne(existing: seq<Element>, known: map<string, Element>, d: DesiredElement)
    requires known == ByIdentifier(existing) && UniqueIdentifiers(existing)
    ensures var cs := ChangeFor(known, d);
            |cs| == (if Settled(existing, d) then 0 else 1) && (cs != [] ==> Serves(existing, d, cs[0]))
  {
    ByIdentifierKeys(existing);
    CreateCreates(d);
    hide Identifier, ByIdentifier, CreatePayload, UpdatePayload, Creates;
    if d.identifier in known {
      var e := known[d.identifier];
      assert Has(existing, d.identifier, e);
      forall f | Has(existing, d.identifier, f) ensures f == e {
      }
    }
  }

  lemma {:induction false} PlanServes(existing: seq<Element>, known: map<string, Element>,
                                      desired: seq<DesiredElement>) returns (at: seq<nat>)
    requires known == ByIdentifier(existing) && UniqueIdentifiers(existing)
    ensures ServesAt(existing, desired, ChangesFor(known, desired), at)
  {
    hide ServesAt, ByIdentifier, UniqueIdentifiers, Serves, Settled, ChangeFor;
    at := [];
    if desired == [] {
      NothingServed(existing);
    } else {
      var before, d := desired[..|desired| - 1], desired[|desired| - 1];
      assert desired == before + [d];
      at := PlanServes(existing, known, before);
      ServesOne(existing, known, d);
      var changes := ChangesFor(known, before);
      ServesMore(existing, before, d, changes, ChangeFor(known, d), at);
      if !Settled(existing, d) { at := at + [|before|]; }
    }
  }

  lemma NothingServed(existing: seq<Element>)
    ensures ServesAt(existing, [], [], [])
  {
  }

  lemma ServesMore(existing: seq<Element>, before: seq<DesiredElement>, d: DesiredElement, changes: seq<DataVersion>,
                   more: seq<DataVersion>, at: seq<nat>)
    requires ServesAt(existing, before, changes, at)
    requires |more| == if Settled(existing, d) then 0 else 1
    requires more != [] ==> Serves(existing, d, more[0])
    ensures ServesAt(existing, before + [d], changes + more, if Settled(existing, d) then at else at + [|before|])
  {
    hide Serves, Settled;
    var desired := before + [d];
    PositionsMore(existing, before, d, at);
    assert changes + [] == changes;
    if !Settled(existing, d) {
      assert more == [more[0]];
      forall k | 0 <= k <= |at| ensures Serves(existing, desired[(at + [|before|])[k]], (changes + more)[k]) {
        if k < |at| { assert desired[at[k]] == before[at[k]]; }
      }
    } else {
      forall k | 0 <= k < |at| ensures Serves(existing, desired[at[k]], changes[k]) {
        assert desired[at[k]] == before[at[k]];
      }
    }
  }

  lemma PositionsMore(existing: seq<Element>, before: seq<DesiredElement>, d: DesiredElement, at: seq<nat>)
    requires forall k :: 0 <= k < |at| ==> at[k] < |before|
    requires forall i :: 0 <= i < |before| ==> (i in at <==> !Settled(existing, before[i]))
    ensures var (desired, at') := (before + [d], if Settled(existing, d) then at else at + [|before|]);
            forall i :: 0 <= i < |desired| ==> (i in at' <==> !Settled(existing, desired[i]))
  {
    hide Settled;
    var (desired, at') := (before + [d], if Settled(existing, d) then at else at + [|before|]);
    forall i | 0 <= i < |desired| ensures i in at' <==> !Settled(existing, desired[i]) {
      if i < |before| {
        assert desired[i] == before[i];
        assert i in at' <==> i in at;
      } else {
        assert |before| !in at;
      }
    }
  }

  lemma {:induction false} DeletesRemove(existing: seq<Element>, known: map<string, Element>, wanted: set<string>,
                                         order: seq<string>) returns (xs: seq<string>)
    requires known == ByIdentifier(existing) && StrictlySorted(order, StrKey)
    requires forall x :: x in order ==> x in known
    ensures RemovesAll(existing, DeletesFor(known, wanted, order), xs) && StrictlySorted(xs, StrKey)
    ensures forall x :: x in xs <==> x in order && x !in wanted
  {
    hide Identifier, ByIdentifier, Has, StrictlySorted;
    xs := [];
    if order == [] {
      NothingRemoved(existing);
    } else {
      var before, x := order[..|order| - 1], order[|order| - 1];
      assert order == before + [x];
      StrictBefore(before, x);
      xs := DeletesRemove(existing, known, wanted, before);
      if x !in wanted {
        KnownHas(existing, x);
        StrictMore(before, x, xs);
        xs := xs + [x];
      }
    }
  }

  lemma NothingRemoved(existing: seq<Element>)
    ensures RemovesAll(existing, [], []) && StrictlySorted([], StrKey)
  {
  }

  lemma KnownHas(existing: seq<Element>, x: string)
    requires x in ByIdentifier(existing)
    ensures Has(existing, x, ByIdentifier(existing)[x])
  {
    ByIdentifierKeys(existing);
  }

  lemma StrictBefore(before: seq<string>, x: string)
    requires StrictlySorted(before + [x], StrKey)
    ensures StrictlySorted(before, StrKey)
  {
    hide StrKey, Le;
    var all := before + [x];
    assert forall i :: 0 <= i < |before| ==> all[i] == before[i];
  }

  /** What comes after `before` comes after any of it. */
  lemma StrictMore(before: seq<string>, x: string, xs: seq<string>)
    requires StrictlySorted(before + [x], StrKey) && StrictlySorted(xs, StrKey) && forall y :: y in xs ==> y in before
    ensures StrictlySorted(xs + [x], StrKey)
  {
    hide StrKey, Le;
    var all := before + [x];
    forall k | 0 <= k < |xs| ensures Le(StrKey(xs[k]), StrKey(x)) && StrKey(xs[k]) != StrKey(x) {
      assert xs[k] in before;
      var i :| 0 <= i < |before| && before[i] == xs[k];
      assert all[i] == xs[k] && all[|before|] == x;
    }
  }

  /** The changes of a diff come in the order of the desired set, one for each element not yet as desired,
      followed by the deletes in the order of their identifiers. */
  lemma DiffInOrder(existing: seq<Element>, desired: seq<DesiredElement>, changes: seq<DataVersion>)
    returns (at: seq<nat>, xs: seq<string>)
    requires Diff(existing, desired) == Ok(changes)
    ensures |changes| == |at| + |xs|
    ensures ServesAt(existing, desired, changes[..|at|], at)
    ensures RemovesAll(existing, changes[|at|..], xs) && Unwanted(existing, desired, xs)
  {
    var known := ByIdentifier(existing);
    NoDuplicates(existing, desired);
    var order := InOrder(known.Keys);
    var plan, deletes := ChangesFor(known, desired), DeletesFor(known, Wanted(desired), order);
    assert changes == plan + deletes;
    hide Diff, Identifier, ByIdentifier, ChangesFor, DeletesFor, ServesAt, RemovesAll, UniqueIdentifiers, UniqueDesired,
         Duplicates, InOrder, StrictlySorted;
    at := PlanServes(existing, known, desired);
    xs := DeletesRemove(existing, known, Wanted(desired), order);
    UnwantedIs(existing, desired, order, xs);
    PlanSplits(existing, desired, plan, deletes, at);
  }

  lemma PlanSplits(existing: seq<Element>, desired: seq<DesiredElement>, plan: seq<DataVersion>,
                   deletes: seq<DataVersion>, at: seq<nat>)
    requires ServesAt(existing, desired, plan, at)
    ensures |at| == |plan| && (plan + deletes)[..|at|] == plan && (plan + deletes)[|at|..] == deletes
  {
    hide Serves, Settled;
    assert |at| == |plan|;
  }

  lemma UnwantedIs(existing: seq<Element>, desired: seq<DesiredElement>, order: seq<string>, xs: seq<string>)
    requires order == InOrder(ByIdentifier(existing).Keys) && StrictlySorted(xs, StrKey)
    requires forall x :: x in xs <==> x in order && x !in Wanted(desired)
    ensures Unwanted(existing, desired, xs)
  {
    ByIdentifierKeys(existing);
    hide Identifier, ByIdentifier, StrictlySorted, InOrder;
    forall x ensures x in ByIdentifier(existing) <==> exists e :: Has(existing, x, e) {
      if x in ByIdentifier(existing) { assert Has(existing, x, ByIdentifier(existing)[x]); }
    }
  }
}
