/** Requirement graphs, as `crates/kr0ki-core` uses them. The types come from the `ufo-types`
    crate, which is not part of this model; the fields are those the modelled code reads. */
module Requirements {
  import opened Wrappers

  datatype BaselineIdentity = BaselineIdentity(id: string, revision: string, importSha256: Option<string>,
                                               exportedSha256: Option<string>)

  datatype Provenance = Provenance(sourceUri: string, artifactSha256: Option<string>, locator: Option<string>)

  datatype EvidenceRef = EvidenceRef(id: string, detail: string)

  datatype Requirement = Requirement(id: string, title: string, text: string, baseline: BaselineIdentity,
                                     provenance: Provenance, attributes: map<string, string>,
                                     evidence: seq<EvidenceRef>)

  datatype RelationKind =
    | Contains | Derives | Refines | Requires | Satisfies | Verifies | Implements | Traces | AllocatedTo | Precedes

  datatype Authority = Asserted | Inferred(basis: string) | Proposed(basis: string)

  datatype Relation = Relation(id: string, source: string, target: string, kind: RelationKind, authority: Authority,
                               provenance: Provenance, promotion: Option<string>)

  datatype RequirementGraph = RequirementGraph(baseline: BaselineIdentity, requirements: seq<Requirement>,
                                               evidence: seq<EvidenceRef>, relations: seq<Relation>)

  predicate UniqueRequirements(rs: seq<Requirement>) {
    forall i, j :: 0 <= i < j < |rs| ==> rs[i].id != rs[j].id
  }

  predicate UniqueRelations(rs: seq<Relation>) {
    forall i, j :: 0 <= i < j < |rs| ==> rs[i].id != rs[j].id
  }

  function RequirementIds(rs: seq<Requirement>): set<string> {
    set r | r in rs :: r.id
  }
}
