// An IDS document: its ordered info entries and its specifications, and the
// `validate` loop that resets each specification, checks its IFC version,
// hands every applicability facet's filter result to it, and collects one
// snapshot per specification into a results object.

module IdsDocuments {
  import opened Wrappers
  import opened IfcModel
  import opened OrderedMaps
  import opened FacetDecls
  import opened Specifications
  import opened ResultSpecifications

  /** `filter(model, minOccurs, maxOccurs)` of a facet. */
  type OccursFilter = (FacetDecl, Option<string>, Option<string>) -> Outcome<seq<Oid>>

  /** The results object; its constructor never creates the snapshot list. */
  datatype ResultsDoc = ResultsDoc(specifications: Option<seq<ResultSpec>>)

  function NewResults(): (r: ResultsDoc)
    ensures r.specifications.None?
  {
    ResultsDoc(None)
  }

  /** `results.getSpecifications().add(s)`: throws on a null list, appends otherwise. */
  function AddSpec(doc: ResultsDoc, s: ResultSpec): (r: Outcome<ResultsDoc>)
    ensures r.Ok? <==> doc.specifications.Some?
    ensures !r.Ok? ==> r == Throws(NullPointer)
    ensures r.Ok? ==> r.value.specifications == Some(doc.specifications.value + [s])
  {
    if doc.specifications.None? then Throws(NullPointer)
    else Ok(ResultsDoc(Some(doc.specifications.value + [s])))
  }

  /** The applicable list after the facets from `k` on hand their filter results over one by
      one; a throwing filter stops the loop with the list reached so far. */
  function Handed(facets: seq<FacetDecl>, k: nat, minOccurs: Option<string>, maxOccurs: Option<string>,
                  filter: OccursFilter, current: seq<Oid>): (r: (seq<Oid>, Outcome<()>))
    requires k <= |facets|
    decreases |facets| - k
  {
    if k == |facets| then (current, Ok(()))
    else
      var xs := filter(facets[k], minOccurs, maxOccurs);
      if !xs.Ok? then (current, xs.PropagateFailure())
      else Handed(facets, k + 1, minOccurs, maxOccurs, filter, xs.value)
  }

  /** Each hand-over replaces the list, so when no filter throws the last facet's result wins. */
  lemma {:induction false} LastFilterWins(facets: seq<FacetDecl>, k: nat, minOccurs: Option<string>,
                                          maxOccurs: Option<string>, filter: OccursFilter, current: seq<Oid>)
    requires k < |facets|
    requires forall i :: k <= i < |facets| ==> filter(facets[i], minOccurs, maxOccurs).Ok?
    ensures Handed(facets, k, minOccurs, maxOccurs, filter, current)
            == (filter(facets[|facets| - 1], minOccurs, maxOccurs).value, Ok(()))
    decreases |facets| - k
  {
    if k + 1 < |facets| {
      LastFilterWins(facets, k + 1, minOccurs, maxOccurs, filter, filter(facets[k], minOccurs, maxOccurs).value);
    }
  }

  /** One specification's turn in the loop before its snapshot: reset, version check, and the
      applicability hand-over when the flag is true and there are applicability facets. */
  function PrepareSpec(schema: string, rules: Ruleset, filter: OccursFilter): (r: Reached)
    ensures Shaped(r.run, |rules.requirements|)
  {
    var run0 := Cleanly(|rules.requirements|);
    var v := ProjectVersion(schema);
    if !v.Ok? then Reached(run0, v.PropagateFailure())
    else
      var run1 := run0.(supported := Some(v.value in rules.versions));
      if v.value !in rules.versions || rules.applicability == [] then Reached(run1, Ok(()))
      else
        var h := Handed(rules.applicability, 0, rules.minOccurs, rules.maxOccurs, filter, run1.applicable);
        Reached(run1.(applicable := h.0), h.1)
  }

  /** Preparation never evaluates a requirement nor sets a status: the reset leaves the status
      null and nothing records a pass or a failure. */
  lemma PrepareLeavesStatusNull(schema: string, rules: Ruleset, filter: OccursFilter)
    ensures var r := PrepareSpec(schema, rules, filter);
      r.run.status.None? && r.run.passed == [] && r.run.failed == []
      && (forall i :: 0 <= i < |rules.requirements| ==>
            r.run.facetPassed[i] == [] && r.run.facetFailures[i] == [] && r.run.facetStatus[i].None?)
  {
  }

  /** One specification's turn: preparation, snapshot, and the append to the results. */
  function Turn(schema: string, view: (Header, Ruleset), doc: ResultsDoc, filter: OccursFilter): Outcome<ResultsDoc> {
    var p := PrepareSpec(schema, view.1, filter);
    if !p.out.Ok? then p.out.PropagateFailure()
    else
      var snap :- Snapshot(view.0, p.run);
      AddSpec(doc, snap)
  }

  /** The loop over the specifications from `k` on, each given by its header and rules. */
  function ValidateAll(schema: string, specs: seq<(Header, Ruleset)>, k: nat, doc: ResultsDoc,
                       filter: OccursFilter): Outcome<ResultsDoc>
    requires k <= |specs|
    decreases |specs| - k
  {
    if k == |specs| then Ok(doc)
    else
      var next :- Turn(schema, specs[k], doc, filter);
      ValidateAll(schema, specs, k + 1, next, filter)
  }

  /** As written, a non-empty specification list never validates: the first specification's
      snapshot reads a status the reset left null (and the results list is never created). */
  lemma NonEmptyNeverValidates(schema: string, specs: seq<(Header, Ruleset)>, k: nat, doc: ResultsDoc,
                                filter: OccursFilter)
    requires k < |specs|
    ensures !ValidateAll(schema, specs, k, doc, filter).Ok?
  {
    PrepareLeavesStatusNull(schema, specs[k].1, filter);
  }

  /** The document's specifications as header and rules. */
  function Views(specs: seq<Specification>): (r: seq<(Header, Ruleset)>)
    reads set s | s in specs
    ensures |r| == |specs|
  {
    if specs == [] then [] else [(specs[0].Info(), specs[0].Rules())] + Views(specs[1..])
  }

  lemma {:induction false} ViewsAt(specs: seq<Specification>, k: nat)
    requires k < |specs|
    ensures Views(specs)[k] == (specs[k].Info(), specs[k].Rules())
  {
    if k > 0 {
      ViewsAt(specs[1..], k - 1);
    }
  }

  /** The hand-over loop: each applicability facet's filter result replaces the applicable list. */
  method HandOver(spec: Specification, filter: OccursFilter) returns (out: Outcome<()>)
    requires spec.Valid()
    modifies spec`supported, spec`applicable, spec`passed, spec`failed, spec`facetPassed,
             spec`facetFailures, spec`facetStatus, spec`status
    ensures spec.Valid()
    ensures var h := Handed(spec.applicability, 0, spec.minOccurs, spec.maxOccurs, filter, old(spec.applicable));
      spec.State() == old(spec.State()).(applicable := h.0) && out == h.1
  {
    var facets := spec.applicability;
    var j := 0;
    while j < |facets|
      invariant 0 <= j <= |facets| && spec.Valid()
      invariant spec.State() == old(spec.State()).(applicable := spec.applicable)
      invariant Handed(facets, j, spec.minOccurs, spec.maxOccurs, filter, spec.applicable)
                == Handed(facets, 0, spec.minOccurs, spec.maxOccurs, filter, old(spec.applicable))
    {
      var xs := filter(facets[j], spec.minOccurs, spec.maxOccurs);
      if !xs.Ok? {
        return xs.PropagateFailure();
      }
      spec.SetApplicableEntities(xs.value);
      j := j + 1;
    }
    return Ok(());
  }

  /** One specification's turn before its snapshot. */
  method Prepare(spec: Specification, schema: string, filter: OccursFilter) returns (out: Outcome<()>)
    requires spec.Valid()
    modifies spec`supported, spec`applicable, spec`passed, spec`failed, spec`facetPassed,
             spec`facetFailures, spec`facetStatus, spec`status
    ensures spec.Valid()
    ensures Reached(spec.State(), out) == PrepareSpec(schema, spec.Rules(), filter)
  {
    spec.ResetStatus();
    var isSupported :- spec.CheckIfcVersion(schema);
    if spec.supported == Some(true) && spec.applicability != [] {
      out := HandOver(spec, filter);
      return;
    }
    return Ok(());
  }

  /** One specification's turn of the loop. */
  method TakeTurn(spec: Specification, schema: string, results: ResultsDoc, filter: OccursFilter)
    returns (r: Outcome<ResultsDoc>)
    requires spec.Valid()
    modifies spec`supported, spec`applicable, spec`passed, spec`failed, spec`facetPassed,
             spec`facetFailures, spec`facetStatus, spec`status
    ensures spec.Valid() && spec.Info() == old(spec.Info()) && spec.Rules() == old(spec.Rules())
    ensures r == Turn(schema, (spec.Info(), spec.Rules()), results, filter)
  {
    var prepared := Prepare(spec, schema, filter);
    if !prepared.Ok? {
      return prepared.PropagateFailure();
    }
    var snap :- Of(spec);
    r := AddSpec(results, snap);
  }

  class Ids {
    /** The info entries, in insertion order. */
    var info: Entries<Option<string>>
    var specifications: seq<Specification>

    constructor()
      ensures info == [] && specifications == []
    {
      info := [];
      specifications := [];
    }

    /** `getInfo().put(key, value)`: a new key goes last, an existing key keeps its place. */
    method PutInfo(key: string, value: Option<string>)
      modifies this`info
      ensures info == Put(old(info), key, value)
      ensures Keys(info) == if key in Keys(old(info)) then Keys(old(info)) else Keys(old(info)) + [key]
      ensures Lookup(info, key) == Some(value)
    {
      PutKeys(info, key, value);
      PutLookup(info, key, value);
      info := Put(info, key, value);
    }

    /** `validate`: every specification in order, reset, version-checked and handed its
        applicability, then snapshotted into the results. */
    method Validate(schema: string, filter: OccursFilter) returns (r: Outcome<ResultsDoc>)
      requires forall s :: s in specifications ==> s.Valid()
      modifies set s | s in specifications
      ensures r == ValidateAll(schema, old(Views(specifications)), 0, NewResults(), filter)
    {
      ghost var views := Views(specifications);
      forall k | 0 <= k < |specifications|
        ensures views[k] == (specifications[k].Info(), specifications[k].Rules())
      {
        ViewsAt(specifications, k);
      }
      var results := NewResults();
      var i := 0;
      while i < |specifications|
        invariant 0 <= i <= |specifications|
        invariant forall s :: s in specifications ==> s.Valid()
        invariant forall k :: 0 <= k < |specifications| ==>
                    views[k] == (specifications[k].Info(), specifications[k].Rules())
        invariant ValidateAll(schema, views, i, results, filter) == ValidateAll(schema, views, 0, NewResults(), filter)
      {
        results :- TakeTurn(specifications[i], schema, results, filter);
        i := i + 1;
      }
      return Ok(results);
    }
  }
}
