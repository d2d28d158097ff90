/** The managed diff of `crates/kr0ki-core/src/sync_engine.rs`. */
module SyncEngine {
  import opened Ordering
  import opened Wrappers

  datatype Json =
    | Null | Bool(b: bool) | Num(n: int) | Str(s: string) | Arr(items: seq<Json>) | Obj(members: map<string, Json>)

  /** A model element: `@id` and `@type` lifted out of its JSON object. */
  datatype Element = Element(id: string, ty: string, fields: map<string, Json>)

  datatype DesiredElement = DesiredElement(identifier: string, ty: string, fields: map<string, Json>)

  /** One change of a commit. A payload is the full JSON object that replaces the element. */
  datatype DataVersion = DataVersion(payload: Option<map<string, Json>>, identity: Option<string>)

  function FirstString(items: seq<Json>): Option<string> {
    if items == [] then None else if items[0].Str? then Some(items[0].s) else FirstString(items[1..])
  }

  /** `element_identifier`: the `identifier` field, else the first string among `aliasIds`. */
  function Identifier(fields: map<string, Json>): Option<string> {
    if "identifier" in fields && fields["identifier"].Str? then Some(fields["identifier"].s)
    else if "aliasIds" in fields && fields["aliasIds"].Arr? then FirstString(fields["aliasIds"].items)
    else None
  }

  /** The first string among these, the items before it being none. */
  ghost predicate FirstStringIs(items: seq<Json>, x: string) {
    exists k :: 0 <= k < |items| && items[k] == Str(x) && forall j :: 0 <= j < k ==> !items[j].Str?
  }

  /** An element is known by its own identifier, and by its first alias only without one. */
  lemma IdentifierExactly(fields: map<string, Json>, x: string)
    ensures Identifier(fields) == Some(x)
            <==> if "identifier" in fields && fields["identifier"].Str? then fields["identifier"] == Str(x)
                 else "aliasIds" in fields && fields["aliasIds"].Arr? && FirstStringIs(fields["aliasIds"].items, x)
  {
    if "aliasIds" in fields && fields["aliasIds"].Arr? { FirstStringExactly(fields["aliasIds"].items, x); }
    hide FirstString, FirstStringIs;
  }

  lemma {:induction false} FirstStringExactly(items: seq<Json>, x: string)
    ensures FirstString(items) == Some(x) <==> FirstStringIs(items, x)
  {
    if items != [] {
      FirstStringExactly(items[1..], x);
      if !items[0].Str? {
        if FirstStringIs(items[1..], x) {
          var k :| 0 <= k < |items| - 1 && items[1..][k] == Str(x) && forall j :: 0 <= j < k ==> !items[1..][j].Str?;
          forall j | 0 <= j < k + 1 ensures !items[j].Str? {
            if j > 0 { assert items[1..][j - 1] == items[j]; }
          }
          assert items[k + 1] == Str(x);
        }
        if FirstStringIs(items, x) {
          var k :| 0 <= k < |items| && items[k] == Str(x) && forall j :: 0 <= j < k ==> !items[j].Str?;
          assert items[1..][k - 1] == Str(x);
          forall j | 0 <= j < k - 1 ensures !items[1..][j].Str? {
            assert items[1..][j] == items[j + 1];
          }
        }
      } else if FirstStringIs(items, x) {
        var k :| 0 <= k < |items| && items[k] == Str(x) && forall j :: 0 <= j < k ==> !items[j].Str?;
        assert k == 0;
      } else {
        assert items[0] != Str(x);
      }
    }
  }

  // ---------------------------------------------------------------- the diff

  function CreatePayload(d: DesiredElement): map<string, Json> {
    d.fields["@type" := Str(d.ty)]["identifier" := Str(d.identifier)]["aliasIds" := Arr([Str(d.identifier)])]
  }

  function UpdatePayload(current: Element, d: DesiredElement): map<string, Json> {
    current.fields["@type" := Str(current.ty)] + d.fields
  }

  /** An owned field differs, or is missing on an element whose server keeps unknown fields. */
  predicate OwnedFieldDiffers(fields: map<string, Json>, d: DesiredElement) {
    exists k :: k in d.fields && (if k in fields then fields[k] != d.fields[k] else "identifier" in fields)
  }

  function ChangeFor(known: map<string, Element>, d: DesiredElement): seq<DataVersion> {
    if d.identifier !in known then [DataVersion(Some(CreatePayload(d)), None)]
    else
      var current := known[d.identifier];
      if OwnedFieldDiffers(current.fields, d) then [DataVersion(Some(UpdatePayload(current, d)), Some(current.id))]
        else []
  }

  function ChangesFor(known: map<string, Element>, desired: seq<DesiredElement>): seq<DataVersion> {
    if desired == [] then []
    else ChangesFor(known, desired[..|desired| - 1]) + ChangeFor(known, desired[|desired| - 1])
  }

  function DeleteFor(known: map<string, Element>, wanted: set<string>, identifier: string): seq<DataVersion>
    requires identifier in known
  {
    if identifier in wanted then [] else [DataVersion(None, Some(known[identifier].id))]
  }

  function DeletesFor(known: map<string, Element>, wanted: set<string>, identifiers: seq<string>): seq<DataVersion>
    requires forall x :: x in identifiers ==> x in known
  {
    if identifiers == [] then []
    else
      DeletesFor(known, wanted, identifiers[..|identifiers| - 1])
        + DeleteFor(known, wanted, identifiers[|identifiers| - 1])
  }

  /** `by_identifier`: the last element with each identifier. */
  function ByIdentifier(existing: seq<Element>): map<string, Element> {
    if existing == [] then map[]
    else
      var e := existing[|existing| - 1];
      var rest := ByIdentifier(existing[..|existing| - 1]);
      if Identifier(e.fields).Some? then rest[Identifier(e.fields).value := e] else rest
  }

  ghost predicate UniqueIdentifiers(existing: seq<Element>) {
    forall i, j :: 0 <= i < j < |existing| && Identifier(existing[i].fields).Some?
      ==> Identifier(existing[i].fields) != Identifier(existing[j].fields)
  }

  ghost predicate UniqueDesired(desired: seq<DesiredElement>) {
    forall i, j :: 0 <= i < j < |desired| ==> desired[i].identifier != desired[j].identifier
  }

  function Wanted(desired: seq<DesiredElement>): set<string> {
    set d | d in desired :: d.identifier
  }

  /** Identifiers occurring twice among the elements, or twice among the desired ones. */
  ghost function Duplicates(existing: seq<Element>, desired: seq<DesiredElement>): set<string> {
    (set i, j | 0 <= i < j < |existing| && Identifier(existing[i].fields).Some?
                && Identifier(existing[i].fields) == Identifier(existing[j].fields)
                :: Identifier(existing[i].fields).value)
    + (set i, j | 0 <= i < j < |desired| && desired[i].identifier == desired[j].identifier :: desired[i].identifier)
  }

  /** The changeset that makes `existing` match `desired`, or every repeated identifier. */
  ghost function Diff(existing: seq<Element>, desired: seq<DesiredElement>): Result<seq<DataVersion>, seq<string>> {
    if Duplicates(existing, desired) != {} then Err(InOrder(Duplicates(existing, desired)))
    else
      var known := ByIdentifier(existing);
      Ok(ChangesFor(known, desired) + DeletesFor(known, Wanted(desired), InOrder(known.Keys)))
  }

  lemma ByIdentifierKeys(existing: seq<Element>)
    ensures forall x :: x in ByIdentifier(existing) <==> exists e :: e in existing && Identifier(e.fields) == Some(x)
    ensures forall x :: x in ByIdentifier(existing) ==>
              ByIdentifier(existing)[x] in existing && Identifier(ByIdentifier(existing)[x].fields) == Some(x)
  {
    if existing != [] {
      var rest, e := existing[..|existing| - 1], existing[|existing| - 1];
      assert existing == rest + [e];
      ByIdentifierKeys(rest);
    }
  }

  /** The first loop of `diff_managed`: index the elements, noting repeated identifiers. */
  method IndexExisting(existing: seq<Element>) returns (known: map<string, Element>, duplicates: set<string>)
    ensures known == ByIdentifier(existing) && duplicates == Duplicates(existing, [])
  {
    duplicates, known := {}, map[];
    assert existing[..|existing|] == existing;
    assert duplicates == Duplicates(existing[..0], []);
    hide Duplicates, Identifier;
    for i := 0 to |existing|
      invariant known == ByIdentifier(existing[..i])
      invariant duplicates == Duplicates(existing[..i], [])
    {
      var e := existing[i];
      ExistingStep(existing, i);
      var id := Identifier(e.fields);
      if id.Some? {
        if id.value in known { duplicates := duplicates + {id.value}; }
        known := known[id.value := e];
      }
    }
  }

  /** The third loop: a create or an update for each desired element that needs one. */
  method PlanChanges(known: map<string, Element>, desired: seq<DesiredElement>) returns (changes: seq<DataVersion>)
    ensures changes == ChangesFor(known, desired)
  {
    changes := [];
    hide OwnedFieldDiffers, CreatePayload, UpdatePayload;
    for i := 0 to |desired|
      invariant changes == ChangesFor(known, desired[..i])
    {
      var d := desired[i];
      assert desired[..i + 1] == desired[..i] + [d];
      assert desired[..i + 1][..i] == desired[..i];
      if d.identifier !in known {
        changes := changes + [DataVersion(Some(CreatePayload(d)), None)];
      } else {
        var current := known[d.identifier];
        if OwnedFieldDiffers(current.fields, d) {
          changes := changes + [DataVersion(Some(UpdatePayload(current, d)), Some(current.id))];
        }
      }
    }
    assert desired[..|desired|] == desired;
  }

  /** The last loop: a delete for each element no longer wanted. */
  method PlanDeletes(known: map<string, Element>, wanted: set<string>, changes0: seq<DataVersion>)
    returns (changes: seq<DataVersion>)
    ensures changes == changes0 + DeletesFor(known, wanted, InOrder(known.Keys))
  {
    var order := InOrder(known.Keys);
    changes := changes0;
    hide InOrder, StrictlySorted, DeletesFor;
    assert DeletesFor(known, wanted, order[..0]) == [] by { DeletesStart(known, wanted, order); }
    for i := 0 to |order|
      invariant changes == changes0 + DeletesFor(known, wanted, order[..i])
    {
      DeletesStep(known, wanted, order, i);
      assert order[i] in order;
      if order[i] !in wanted { changes := changes + [DataVersion(None, Some(known[order[i]].id))]; }
    }
    assert order[..|order|] == order;
  }

  lemma DeletesStart(known: map<string, Element>, wanted: set<string>, order: seq<string>)
    ensures DeletesFor(known, wanted, order[..0]) == []
  {
  }

  lemma DeletesStep(known: map<string, Element>, wanted: set<string>, order: seq<string>, i: nat)
    requires i < |order| && forall x :: x in order ==> x in known
    ensures DeletesFor(known, wanted, order[..i + 1])
            == DeletesFor(known, wanted, order[..i]) + DeleteFor(known, wanted, order[i])
  {
    assert order[..i + 1] == order[..i] + [order[i]];
    assert order[..i + 1][..i] == order[..i];
  }

  /** `diff_managed`. */
  method DiffManaged(existing: seq<Element>, desired: seq<DesiredElement>)
    returns (r: Result<seq<DataVersion>, seq<string>>)
    ensures r == Diff(existing, desired)
  {
    var known, duplicates := IndexExisting(existing);
    var wanted: set<string> := {};
    hide Duplicates, ChangesFor, ByIdentifier, DeletesFor;
    for i := 0 to |desired|
      invariant wanted == Wanted(desired[..i])
      invariant duplicates == Duplicates(existing, desired[..i])
    {
      DesiredStep(existing, desired, i);
      if desired[i].identifier in wanted { duplicates := duplicates + {desired[i].identifier}; }
      wanted := wanted + {desired[i].identifier};
    }
    assert desired[..|desired|] == desired;
    if duplicates != {} { return Err(InOrder(duplicates)); }
    var changes := PlanChanges(known, desired);
    changes := PlanDeletes(known, wanted, changes);
    r := Ok(changes);
  }

  lemma ExistingStep(existing: seq<Element>, i: nat)
    requires i < |existing|
    ensures var (e, before) := (existing[i], existing[..i]);
            var id := Identifier(e.fields);
            && ByIdentifier(existing[..i + 1])
               == (if id.Some? then ByIdentifier(before)[id.value := e] else ByIdentifier(before))
            && Duplicates(existing[..i + 1], [])
               == Duplicates(before, []) + if id.Some? && id.value in ByIdentifier(before) then {id.value} else {}
  {
    hide Identifier;
    var e, before, after := existing[i], existing[..i], existing[..i + 1];
    assert after == before + [e];
    assert after[..i] == before;
    ByIdentifierKeys(before);
    var id := Identifier(e.fields);
    forall x ensures x in Duplicates(after, []) <==>
        x in Duplicates(before, []) || (id == Some(x) && x in ByIdentifier(before))
    {
      if id == Some(x) && x in ByIdentifier(before) {
        var p :| p in before && Identifier(p.fields) == Some(x);
        var k :| 0 <= k < i && before[k] == p;
        assert after[k] == p && after[i] == e;
      }
    }
  }

  lemma DesiredStep(existing: seq<Element>, desired: seq<DesiredElement>, i: nat)
    requires i < |desired|
    ensures var (d, before) := (desired[i], desired[..i]);
            && Wanted(desired[..i + 1]) == Wanted(before) + {d.identifier}
            && Duplicates(existing, desired[..i + 1])
               == Duplicates(existing, before) + if d.identifier in Wanted(before) then {d.identifier} else {}
  {
    hide Identifier;
    var d, before, after := desired[i], desired[..i], desired[..i + 1];
    assert after == before + [d];
    forall x ensures x in Duplicates(existing, after) <==>
        x in Duplicates(existing, before) || (d.identifier == x && x in Wanted(before))
    {
      if d.identifier == x && x in Wanted(before) {
        var k :| 0 <= k < i && before[k].identifier == x;
        assert after[k] == before[k] && after[i] == d;
      }
    }
  }

  lemma NoDuplicates(existing: seq<Element>, desired: seq<DesiredElement>)
    ensures Duplicates(existing, desired) == {} <==> UniqueIdentifiers(existing) && UniqueDesired(desired)
  {
    hide Identifier;
    if !UniqueIdentifiers(existing) {
      var i, j :| 0 <= i < j < |existing| && Identifier(existing[i].fields).Some?
                  && Identifier(existing[i].fields) == Identifier(existing[j].fields);
      assert Identifier(existing[i].fields).value in Duplicates(existing, desired);
    }
    if !UniqueDesired(desired) {
      var i, j :| 0 <= i < j < |desired| && desired[i].identifier == desired[j].identifier;
      assert desired[i].identifier in Duplicates(existing, desired);
    }
  }
}
