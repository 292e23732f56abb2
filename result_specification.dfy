// The per-specification summary the checker reports: a one-time copy of a
// specification's descriptive fields, status, version flag and list sizes.

module ResultSpecifications {
  import opened Wrappers
  import opened Specifications

  /** A requirement summary; the snapshot never fills these in. */
  datatype ResultRequirement = ResultRequirement(facetType: Option<string>, labelText: Option<string>,
                                                 value: Option<string>, description: Option<string>,
                                                 status: bool, totalApplicableEntities: int,
                                                 totalPass: int, totalFail: int)

  datatype ResultSpec = ResultSpec(
    name: string,
    description: Option<string>,
    identifier: Option<string>,
    instructions: Option<string>,
    status: bool,
    isIfcVersion: bool,
    totalApplicable: int,
    totalApplicablePassed: int,
    totalApplicableFailed: int,
    totalChecks: int,
    totalChecksPassed: int,
    totalChecksFailed: int,
    cardinality: Option<string>,
    applicability: Option<seq<string>>,
    requirements: Option<seq<ResultRequirement>>)

  /** The snapshot of a specification with header `h` and run state `run`. The status and the
      version flag are read through primitive-`boolean` getters, so a null one throws. */
  function Snapshot(h: Header, run: Run): (r: Outcome<ResultSpec>)
    ensures r.Ok? <==> run.status.Some? && run.supported.Some?
    ensures !r.Ok? ==> r == Throws(NullPointer)
    ensures r.Ok? ==>
      r.value.name == h.name && r.value.description == h.description
      && r.value.identifier == h.identifier && r.value.instructions == h.instructions
      && r.value.status == run.status.value && r.value.isIfcVersion == run.supported.value
    ensures r.Ok? ==>
      r.value.totalApplicable == |run.applicable| && r.value.totalApplicablePassed == |run.passed|
      && r.value.totalApplicableFailed == |run.failed|
    ensures r.Ok? ==>
      r.value.totalChecks == 0 && r.value.totalChecksPassed == 0 && r.value.totalChecksFailed == 0
      && r.value.cardinality.None? && r.value.applicability.None? && r.value.requirements.None?
  {
    if run.status.None? || run.supported.None? then Throws(NullPointer)
    else
      Ok(ResultSpec(h.name, h.description, h.identifier, h.instructions,
                    run.status.value, run.supported.value,
                    |run.applicable|, |run.passed|, |run.failed|,
                    0, 0, 0, None, None, None))
  }

  /** `new ResultSpecification(specification)`. */
  function Of(spec: Specification): (r: Outcome<ResultSpec>)
    reads spec
  {
    Snapshot(spec.Info(), spec.State())
  }

  /** A snapshot taken after `validate` completed keeps its books: the passed and failed counts
      add up to one entry per (applicable element, requirement). */
  lemma SnapshotBalanced(schema: string, h: Header, rules: Ruleset, run: Run, checks: Checks)
    requires Shaped(run, |rules.requirements|) && Balanced(run, |rules.requirements|)
    ensures var v := ValidateSpec(schema, rules, run, checks);
      var s := Snapshot(h, v.run);
      v.out.Ok? && s.Ok? ==>
        s.value.totalApplicablePassed + s.value.totalApplicableFailed
        == s.value.totalApplicable * |rules.requirements|
  {
    ValidateAccounts(schema, rules, run, checks);
  }

  /** A snapshot of a freshly reset specification cannot be taken: its status is null. */
  lemma ResetSnapshotThrows(h: Header, n: nat)
    ensures Snapshot(h, Cleanly(n)) == Throws(NullPointer)
  {
  }
}
