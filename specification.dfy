// A specification: its IFC version gate, the applicability test that selects
// the elements it applies to, the per-(element, requirement) pass/fail
// bookkeeping (inverted for prohibited specifications), and the status fold.
//
// The facets themselves are abstract here: `filter`, `matches` and the
// result's `to_String` come in as functions (`Checks`). The run state of each
// requirement facet (passed elements, recorded failures, status) is kept
// beside the requirement list, one entry per requirement.

module Specifications {
  import opened Wrappers
  import opened JavaStrings
  import opened IfcModel
  import opened Results
  import opened FacetDecls

  datatype IfcVersion = IFC2X3 | IFC4 | IFC4X3_ADD2

  /** `ifcVersionFromString`: trim, upper-case, and accept IFC2X3 or IFC4 only. */
  function VersionFromString(s: string): (r: Outcome<IfcVersion>)
    ensures r.Ok? ==> r.value != IFC4X3_ADD2
    ensures !r.Ok? ==> r == Throws(IllegalArgument)
  {
    var t := Upper(Trim(s));
    if t == "IFC2X3" then Ok(IFC2X3)
    else if t == "IFC4" then Ok(IFC4)
    else Throws(IllegalArgument)
  }

  /** The project schema as `check_ifc_version` reads it: upper-cased, with IFC2X3TC1 read as IFC2X3. */
  function ProjectSchema(schema: string): string {
    var t := Upper(schema);
    if t == "IFC2X3TC1" then "IFC2X3" else t
  }

  function ProjectVersion(schema: string): (r: Outcome<IfcVersion>)
    ensures r.Ok? ==> r.value != IFC4X3_ADD2
  {
    VersionFromString(ProjectSchema(schema))
  }

  /** A project whose schema reads IFC2X3TC1 in any case is an IFC2X3 project. */
  lemma Tc1IsIfc2x3(schema: string)
    requires Upper(schema) == "IFC2X3TC1"
    ensures ProjectVersion(schema) == Ok(IFC2X3)
  {
    assert ProjectSchema(schema) == "IFC2X3";
    Ifc2x3Reads();
  }

  /** The text IFC2X3 names the IFC2X3 schema. */
  lemma Ifc2x3Reads()
    ensures VersionFromString("IFC2X3") == Ok(IFC2X3)
  {
    var t := "IFC2X3";
    assert NoOuterSpace(t);
    TrimNoop(t);
    assert Upper(t) == t;
  }

  // ---------------------------------------------------------------------------
  // The abstract facets and the run state

  type Filter = FacetDecl -> Outcome<Option<seq<Oid>>>
  type Matcher = (FacetDecl, Oid) -> Outcome<FacetResult>
  type Renderer = (FacetDecl, FacetResult) -> Outcome<string>

  /** `filter(model)`, `matches(element)` and `Result.to_String()` of the facets. A null
      filter result is `Ok(None)`. */
  datatype Checks = Checks(filter: Filter, matches: Matcher, render: Renderer)

  /** A recorded facet failure: the element and the result's message. */
  datatype Failure = Failure(element: Oid, reason: string)

  /** What `validate` reads and never changes. */
  datatype Ruleset = Ruleset(versions: seq<IfcVersion>, applicability: seq<FacetDecl>,
                             requirements: seq<FacetDecl>, minOccurs: Option<string>,
                             maxOccurs: Option<string>)

  /** What `validate` changes: the version flag, the three element lists, the
      requirement facets' state and the status. */
  datatype Run = Run(supported: Option<bool>, applicable: seq<Oid>, passed: seq<Oid>,
                     failed: seq<Oid>, facetPassed: seq<seq<Oid>>,
                     facetFailures: seq<seq<Failure>>, facetStatus: seq<Option<bool>>,
                     status: Option<bool>)

  predicate Shaped(run: Run, n: nat) {
    |run.facetPassed| == n && |run.facetFailures| == n && |run.facetStatus| == n
  }

  /** `n` copies of `x`. */
  function Repeat<T>(x: T, n: nat): (r: seq<T>)
    ensures |r| == n && forall i :: 0 <= i < n ==> r[i] == x
  {
    if n == 0 then [] else [x] + Repeat(x, n - 1)
  }

  /** The run state before any validation: nothing recorded, every status null. */
  function Cleanly(n: nat): (r: Run)
    ensures Shaped(r, n)
  {
    Run(None, [], [], [], Repeat([], n), Repeat([], n), Repeat(None, n), None)
  }

  /** The state reached and how the call ended; a thrown exception keeps the state reached so far. */
  datatype Reached = Reached(run: Run, out: Outcome<()>)

  predicate Prohibited(maxOccurs: Option<string>) {
    maxOccurs == Some("0")
  }

  /** A prohibited specification: minOccurs "0" and maxOccurs "0". */
  predicate ProhibitedSpec(rules: Ruleset) {
    rules.minOccurs == Some("0") && Prohibited(rules.maxOccurs)
  }

  // ---------------------------------------------------------------------------
  // Applicability

  function FirstEntityFrom(app: seq<FacetDecl>, k: nat): (i: nat)
    requires k <= |app|
    ensures k <= i <= |app|
    ensures i < |app| ==> app[i].EntityDecl?
    ensures forall j :: k <= j < i ==> !app[j].EntityDecl?
    decreases |app| - k
  {
    if k == |app| || app[k].EntityDecl? then k else FirstEntityFrom(app, k + 1)
  }

  /** The anchor facet: the first Entity facet, else the first facet. */
  function Anchor(app: seq<FacetDecl>): (i: nat)
    requires |app| > 0
    ensures i < |app|
    ensures (exists j :: 0 <= j < |app| && app[j].EntityDecl?) ==>
              (app[i].EntityDecl? && forall j :: 0 <= j < i ==> !app[j].EntityDecl?)
    ensures (forall j :: 0 <= j < |app| ==> !app[j].EntityDecl?) ==> i == 0
  {
    var k := FirstEntityFrom(app, 0);
    if k < |app| then k else 0
  }

  /** Whether every applicability facet other than the anchor passes `e`, from facet `k` on;
      the first failing facet ends the test. */
  function OthersPass(app: seq<FacetDecl>, anchor: nat, k: nat, e: Oid, matches: Matcher): Outcome<bool>
    requires k <= |app|
    decreases |app| - k
  {
    if k == |app| then Ok(true)
    else if k == anchor then OthersPass(app, anchor, k + 1, e, matches)
    else
      var res :- matches(app[k], e);
      if !res.isPass then Ok(false) else OthersPass(app, anchor, k + 1, e, matches)
  }

  /** `e` passes the facet at `i`. */
  predicate PassesAt(app: seq<FacetDecl>, i: nat, e: Oid, matches: Matcher)
    requires i < |app|
  {
    matches(app[i], e).Ok? && matches(app[i], e).value.isPass
  }

  /** The applicability test accepts exactly the elements every non-anchor facet passes. */
  lemma {:induction false} OthersPassSpec(app: seq<FacetDecl>, anchor: nat, k: nat, e: Oid, matches: Matcher)
    requires k <= |app|
    ensures OthersPass(app, anchor, k, e, matches) == Ok(true) <==>
              forall i :: k <= i < |app| && i != anchor ==> PassesAt(app, i, e, matches)
    decreases |app| - k
  {
    if k < |app| {
      OthersPassSpec(app, anchor, k + 1, e, matches);
      if k != anchor && !PassesAt(app, k, e, matches) {
        assert OthersPass(app, anchor, k, e, matches) != Ok(true);
      }
    }
  }

  /** The elements of `els` the applicability test accepts, in order. */
  function ApplicableAmong(rules: Ruleset, anchor: nat, els: seq<Oid>, matches: Matcher): seq<Oid> {
    if els == [] then []
    else
      (if OthersPass(rules.applicability, anchor, 0, els[0], matches) == Ok(true) then [els[0]] else [])
      + ApplicableAmong(rules, anchor, els[1..], matches)
  }

  lemma {:induction false} ApplicableAmongMembers(rules: Ruleset, anchor: nat, els: seq<Oid>, matches: Matcher)
    ensures forall x :: x in ApplicableAmong(rules, anchor, els, matches) <==>
              x in els && OthersPass(rules.applicability, anchor, 0, x, matches) == Ok(true)
  {
    if els != [] {
      ApplicableAmongMembers(rules, anchor, els[1..], matches);
      assert els == [els[0]] + els[1..];
    }
  }


  // ---------------------------------------------------------------------------
  // Accounting of one applicable element

  /** The requirement loop for element `e`, from requirement `j` on. A result counts as a
      pass when its verdict differs from "prohibited"; a failure records the result's message. */
  function Account(reqs: seq<FacetDecl>, j: nat, e: Oid, run: Run, maxOccurs: Option<string>,
                   matches: Matcher, render: Renderer): (r: Reached)
    requires j <= |reqs| && Shaped(run, |reqs|)
    ensures Shaped(r.run, |reqs|)
    decreases |reqs| - j
  {
    if j == |reqs| then Reached(run, Ok(()))
    else
      var res := matches(reqs[j], e);
      if !res.Ok? then Reached(run, res.PropagateFailure())
      else if res.value.isPass != Prohibited(maxOccurs) then
        Account(reqs, j + 1, e,
                run.(passed := run.passed + [e], facetPassed := run.facetPassed[j := run.facetPassed[j] + [e]]),
                maxOccurs, matches, render)
      else
        var run1 := run.(failed := run.failed + [e]);
        var msg := render(reqs[j], res.value);
        if !msg.Ok? then Reached(run1, msg.PropagateFailure())
        else
          Account(reqs, j + 1, e,
                  run1.(facetFailures := run1.facetFailures[j := run1.facetFailures[j] + [Failure(e, msg.value)]]),
                  maxOccurs, matches, render)
  }

  /** One entry per requirement: the passed and failed lists grow by one element in all, per
      requirement facet, and nothing else in the run changes. */
  lemma {:induction false} AccountCounts(reqs: seq<FacetDecl>, j: nat, e: Oid, run: Run, maxOccurs: Option<string>,
                                         matches: Matcher, render: Renderer)
    requires j <= |reqs| && Shaped(run, |reqs|)
    ensures var r := Account(reqs, j, e, run, maxOccurs, matches, render);
      r.out.Ok? ==>
        |r.run.passed| + |r.run.failed| == |run.passed| + |run.failed| + (|reqs| - j)
    ensures var r := Account(reqs, j, e, run, maxOccurs, matches, render);
      r.run.supported == run.supported && r.run.applicable == run.applicable
      && r.run.facetStatus == run.facetStatus && r.run.status == run.status
    decreases |reqs| - j
  {
    if j < |reqs| {
      var res := matches(reqs[j], e);
      if res.Ok? {
        if res.value.isPass != Prohibited(maxOccurs) {
          AccountCounts(reqs, j + 1, e,
                        run.(passed := run.passed + [e], facetPassed := run.facetPassed[j := run.facetPassed[j] + [e]]),
                        maxOccurs, matches, render);
        } else {
          var run1 := run.(failed := run.failed + [e]);
          var msg := render(reqs[j], res.value);
          if msg.Ok? {
            AccountCounts(reqs, j + 1, e,
                          run1.(facetFailures := run1.facetFailures[j := run1.facetFailures[j] + [Failure(e, msg.value)]]),
                          maxOccurs, matches, render);
          }
        }
      }
    }
  }

  /** Requirement `i` books element `e` as a pass (or, when prohibited, as a failure). */
  predicate CountsAsPass(reqs: seq<FacetDecl>, i: nat, e: Oid, maxOccurs: Option<string>, matches: Matcher)
    requires i < |reqs|
  {
    var res := matches(reqs[i], e);
    res.Ok? && res.value.isPass != Prohibited(maxOccurs)
  }

  /** The number of requirements from `j` on that book `e` as a pass. */
  function PassCount(reqs: seq<FacetDecl>, j: nat, e: Oid, maxOccurs: Option<string>, matches: Matcher): (n: nat)
    requires j <= |reqs|
    ensures n <= |reqs| - j
    decreases |reqs| - j
  {
    if j == |reqs| then 0
    else (if CountsAsPass(reqs, j, e, maxOccurs, matches) then 1 else 0) + PassCount(reqs, j + 1, e, maxOccurs, matches)
  }

  /** `n` copies of `e`. */
  function Copies(e: Oid, n: nat): (r: seq<Oid>)
    ensures |r| == n && forall i :: 0 <= i < n ==> r[i] == e
  {
    if n == 0 then [] else [e] + Copies(e, n - 1)
  }

  /** The specification-level lists: `e` joins the passed list once per passing requirement and
      the failed list once per failing one, after what they held before. */
  lemma AccountSpecLists(reqs: seq<FacetDecl>, j: nat, e: Oid, run: Run, maxOccurs: Option<string>,
                         matches: Matcher, render: Renderer)
    requires j <= |reqs| && Shaped(run, |reqs|)
    ensures var r := Account(reqs, j, e, run, maxOccurs, matches, render); var n := PassCount(reqs, j, e, maxOccurs, matches);
      r.out.Ok? ==>
        r.run.passed == run.passed + Copies(e, n) && r.run.failed == run.failed + Copies(e, |reqs| - j - n)
  {
    AccountPassed(reqs, j, e, run, maxOccurs, matches, render);
    AccountFailed(reqs, j, e, run, maxOccurs, matches, render);
  }

  /** The passed list gains one copy of `e` per passing requirement. */
  lemma {:induction false} AccountPassed(reqs: seq<FacetDecl>, j: nat, e: Oid, run: Run, maxOccurs: Option<string>,
                                         matches: Matcher, render: Renderer)
    requires j <= |reqs| && Shaped(run, |reqs|)
    ensures var r := Account(reqs, j, e, run, maxOccurs, matches, render);
      r.out.Ok? ==> r.run.passed == run.passed + Copies(e, PassCount(reqs, j, e, maxOccurs, matches))
    decreases |reqs| - j
  {
    if j < |reqs| {
      var res := matches(reqs[j], e);
      var n := PassCount(reqs, j + 1, e, maxOccurs, matches);
      if res.Ok? {
        if res.value.isPass != Prohibited(maxOccurs) {
          var next := run.(passed := run.passed + [e], facetPassed := run.facetPassed[j := run.facetPassed[j] + [e]]);
          AccountPassed(reqs, j + 1, e, next, maxOccurs, matches, render);
          assert run.passed + [e] + Copies(e, n) == run.passed + Copies(e, n + 1);
        } else {
          var run1 := run.(failed := run.failed + [e]);
          var msg := render(reqs[j], res.value);
          if msg.Ok? {
            var next := run1.(facetFailures := run1.facetFailures[j := run1.facetFailures[j] + [Failure(e, msg.value)]]);
            AccountPassed(reqs, j + 1, e, next, maxOccurs, matches, render);
          }
        }
      }
    } else {
      assert run.passed + Copies(e, 0) == run.passed;
    }
  }

  /** The failed list gains one copy of `e` per failing requirement. */
  lemma {:induction false} AccountFailed(reqs: seq<FacetDecl>, j: nat, e: Oid, run: Run, maxOccurs: Option<string>,
                                         matches: Matcher, render: Renderer)
    requires j <= |reqs| && Shaped(run, |reqs|)
    ensures var r := Account(reqs, j, e, run, maxOccurs, matches, render);
      r.out.Ok? ==> r.run.failed == run.failed + Copies(e, |reqs| - j - PassCount(reqs, j, e, maxOccurs, matches))
    decreases |reqs| - j
  {
    if j < |reqs| {
      var res := matches(reqs[j], e);
      var n := PassCount(reqs, j + 1, e, maxOccurs, matches);
      if res.Ok? {
        if res.value.isPass != Prohibited(maxOccurs) {
          var next := run.(passed := run.passed + [e], facetPassed := run.facetPassed[j := run.facetPassed[j] + [e]]);
          AccountFailed(reqs, j + 1, e, next, maxOccurs, matches, render);
        } else {
          var run1 := run.(failed := run.failed + [e]);
          var msg := render(reqs[j], res.value);
          if msg.Ok? {
            var next := run1.(facetFailures := run1.facetFailures[j := run1.facetFailures[j] + [Failure(e, msg.value)]]);
            AccountFailed(reqs, j + 1, e, next, maxOccurs, matches, render);
            assert run.failed + [e] + Copies(e, |reqs| - (j + 1) - n) == run.failed + Copies(e, |reqs| - j - n);
          }
        }
      }
    } else {
      assert run.failed + Copies(e, 0) == run.failed;
    }
  }

  /** How requirement `i` books element `e`: a pass (or, when prohibited, a failure) adds `e`
      to the facet's passed elements; otherwise one failure carrying the message is recorded. */
  predicate BookedAt(reqs: seq<FacetDecl>, i: nat, e: Oid, before: Run, after: Run, maxOccurs: Option<string>,
                     matches: Matcher, render: Renderer)
    requires i < |reqs| && Shaped(before, |reqs|) && Shaped(after, |reqs|)
  {
    var res := matches(reqs[i], e);
    res.Ok? &&
    if res.value.isPass != Prohibited(maxOccurs) then
      after.facetPassed[i] == before.facetPassed[i] + [e] && after.facetFailures[i] == before.facetFailures[i]
    else
      render(reqs[i], res.value).Ok? && after.facetPassed[i] == before.facetPassed[i]
      && after.facetFailures[i] == before.facetFailures[i] + [Failure(e, render(reqs[i], res.value).value)]
  }

  /** Every requirement from `j` on books `e` exactly once, as `BookedAt` says; earlier ones are untouched. */
  lemma {:induction false} AccountPerFacet(reqs: seq<FacetDecl>, j: nat, e: Oid, run: Run, maxOccurs: Option<string>,
                                           matches: Matcher, render: Renderer)
    requires j <= |reqs| && Shaped(run, |reqs|)
    ensures var r := Account(reqs, j, e, run, maxOccurs, matches, render);
      r.out.Ok? ==>
        (forall i :: j <= i < |reqs| ==> BookedAt(reqs, i, e, run, r.run, maxOccurs, matches, render))
        && (forall i :: 0 <= i < j ==>
              r.run.facetPassed[i] == run.facetPassed[i] && r.run.facetFailures[i] == run.facetFailures[i])
    decreases |reqs| - j
  {
    if j < |reqs| {
      var r := Account(reqs, j, e, run, maxOccurs, matches, render);
      var res := matches(reqs[j], e);
      if res.Ok? {
        var next;
        if res.value.isPass != Prohibited(maxOccurs) {
          next := run.(passed := run.passed + [e], facetPassed := run.facetPassed[j := run.facetPassed[j] + [e]]);
        } else {
          var run1 := run.(failed := run.failed + [e]);
          var msg := render(reqs[j], res.value);
          if !msg.Ok? {
            return;
          }
          next := run1.(facetFailures := run1.facetFailures[j := run1.facetFailures[j] + [Failure(e, msg.value)]]);
        }
        assert r == Account(reqs, j + 1, e, next, maxOccurs, matches, render);
        AccountPerFacet(reqs, j + 1, e, next, maxOccurs, matches, render);
        if r.out.Ok? {
          assert r.run.facetPassed[j] == next.facetPassed[j] && r.run.facetFailures[j] == next.facetFailures[j];
          assert BookedAt(reqs, j, e, run, next, maxOccurs, matches, render);
          assert BookedAt(reqs, j, e, run, r.run, maxOccurs, matches, render);
          forall i | j < i < |reqs|
            ensures BookedAt(reqs, i, e, run, r.run, maxOccurs, matches, render)
          {
            assert BookedAt(reqs, i, e, next, r.run, maxOccurs, matches, render);
          }
        }
      }
    }
  }


  // ---------------------------------------------------------------------------
  // Status fold and occurrence checks

  /** No requirement facet has a recorded failure. */
  predicate Cleared(fs: seq<seq<Failure>>) {
    forall i :: 0 <= i < |fs| ==> fs[i] == []
  }

  /** Each facet's "no failures recorded". */
  function StatusOf(fs: seq<seq<Failure>>): (r: seq<Option<bool>>)
    ensures |r| == |fs| && forall i :: 0 <= i < |fs| ==> r[i] == Some(fs[i] == [])
  {
    if fs == [] then [] else [Some(fs[0] == [])] + StatusOf(fs[1..])
  }

  /** Every facet's status set to "no failures", and the status to the AND of them. */
  function Fold(run: Run, n: nat): Run
    requires Shaped(run, n)
  {
    run.(facetStatus := StatusOf(run.facetFailures), status := Some(Cleared(run.facetFailures)))
  }

  /** The required-but-empty and prohibited-without-requirements checks, as written. */
  function Occurrences(run: Run, n: nat, minOccurs: Option<string>, maxOccurs: Option<string>): Run
    requires Shaped(run, n)
  {
    if minOccurs != Some("0") then
      if run.applicable == [] then run.(status := Some(false), facetStatus := Repeat(Some(false), n))
      else run
    else if Prohibited(maxOccurs) then
      if run.applicable != [] && n == 0 then run.(status := Some(false)) else run
    else run
  }

  function Conclude(run: Run, n: nat, minOccurs: Option<string>, maxOccurs: Option<string>): (r: Run)
    requires Shaped(run, n)
    ensures Shaped(r, n)
  {
    Occurrences(Fold(run, n), n, minOccurs, maxOccurs)
  }

  /** The status a concluded run holds: no failures anywhere, except that a prohibited
      specification without requirements fails. */
  predicate Settled(run: Run, rules: Ruleset) {
    var n := |rules.requirements|;
    Shaped(run, n)
    && run.status == Some(Cleared(run.facetFailures) && !(ProhibitedSpec(rules) && n == 0))
    && forall i :: 0 <= i < n ==> run.facetStatus[i] == Some(run.facetFailures[i] == [])
  }

  /** After an element has been added, the required-but-empty branch cannot fire, the status
      is the AND of "no failures" (true without requirements) except for a prohibited
      specification without requirements, and only statuses change. */
  lemma ConcludeSettles(run: Run, rules: Ruleset)
    requires Shaped(run, |rules.requirements|) && run.applicable != []
    ensures var c := Conclude(run, |rules.requirements|, rules.minOccurs, rules.maxOccurs);
      Settled(c, rules) && c == run.(facetStatus := c.facetStatus, status := c.status)
  {
  }

  // ---------------------------------------------------------------------------
  // The element loop and `validate`

  function Scan(rules: Ruleset, anchor: nat, els: seq<Oid>, k: nat, run: Run, checks: Checks): (r: Reached)
    requires k <= |els| && Shaped(run, |rules.requirements|)
    ensures Shaped(r.run, |rules.requirements|)
    decreases |els| - k
  {
    if k == |els| then Reached(run, Ok(()))
    else
      var e := els[k];
      var app := OthersPass(rules.applicability, anchor, 0, e, checks.matches);
      if !app.Ok? then Reached(run, app.PropagateFailure())
      else if !app.value then Scan(rules, anchor, els, k + 1, run, checks)
      else
        var r := Account(rules.requirements, 0, e, run.(applicable := run.applicable + [e]),
                         rules.maxOccurs, checks.matches, checks.render);
        if !r.out.Ok? then r
        else
          Scan(rules, anchor, els, k + 1,
               Conclude(r.run, |rules.requirements|, rules.minOccurs, rules.maxOccurs), checks)
  }

  /** `validate` on a project schema. */
  function ValidateSpec(schema: string, rules: Ruleset, run: Run, checks: Checks): (r: Reached)
    requires Shaped(run, |rules.requirements|)
    ensures Shaped(r.run, |rules.requirements|)
  {
    var v := ProjectVersion(schema);
    if !v.Ok? then Reached(run, v.PropagateFailure())
    else
      var run1 := run.(supported := Some(v.value in rules.versions));
      if v.value !in rules.versions || rules.applicability == [] then Reached(run1, Ok(()))
      else
        var found := checks.filter(rules.applicability[Anchor(rules.applicability)]);
        if !found.Ok? then Reached(run1, found.PropagateFailure())
        else if found.value.None? then Reached(run1, Throws(NullPointer))
        else
          var r := Scan(rules, Anchor(rules.applicability), found.value.value, 0, run1, checks);
          if r.out.Ok? && r.run.status.None? then Reached(r.run, Throws(NullPointer)) else r
  }

  /** The applicable list grows by exactly the accepted candidates, in candidate order; when
      nothing is accepted the run is untouched. */
  lemma {:induction false} ScanApplicable(rules: Ruleset, anchor: nat, els: seq<Oid>, k: nat, run: Run, checks: Checks)
    requires k <= |els| && Shaped(run, |rules.requirements|)
    ensures var r := Scan(rules, anchor, els, k, run, checks);
      r.out.Ok? ==>
        r.run.applicable == run.applicable + ApplicableAmong(rules, anchor, els[k..], checks.matches)
        && (ApplicableAmong(rules, anchor, els[k..], checks.matches) == [] ==> r.run == run)
    decreases |els| - k
  {
    if k < |els| {
      var e := els[k];
      assert els[k..][1..] == els[k + 1..];
      var app := OthersPass(rules.applicability, anchor, 0, e, checks.matches);
      if app.Ok? {
        if !app.value {
          ScanApplicable(rules, anchor, els, k + 1, run, checks);
        } else {
          var run0 := run.(applicable := run.applicable + [e]);
          var r := Account(rules.requirements, 0, e, run0, rules.maxOccurs, checks.matches, checks.render);
          AccountCounts(rules.requirements, 0, e, run0, rules.maxOccurs, checks.matches, checks.render);
          if r.out.Ok? {
            var c := Conclude(r.run, |rules.requirements|, rules.minOccurs, rules.maxOccurs);
            assert c.applicable == run.applicable + [e];
            ScanApplicable(rules, anchor, els, k + 1, c, checks);
            var rest := ApplicableAmong(rules, anchor, els[k + 1..], checks.matches);
            assert ApplicableAmong(rules, anchor, els[k..], checks.matches) == [e] + rest;
            assert run.applicable + [e] + rest == run.applicable + ([e] + rest);
          }
        }
      }
    }
  }

  /** |passed| + |failed| == |applicable| * |requirements| */
  predicate Balanced(run: Run, n: nat) {
    |run.passed| + |run.failed| == |run.applicable| * n
  }

  /** One entry per (applicable element, requirement): the element loop keeps the books balanced. */
  lemma {:induction false} ScanBalances(rules: Ruleset, anchor: nat, els: seq<Oid>, k: nat, run: Run, checks: Checks)
    requires k <= |els| && Shaped(run, |rules.requirements|)
    requires Balanced(run, |rules.requirements|)
    ensures var r := Scan(rules, anchor, els, k, run, checks);
      r.out.Ok? ==> Balanced(r.run, |rules.requirements|)
    decreases |els| - k
  {
    var n := |rules.requirements|;
    if k < |els| {
      var e := els[k];
      var app := OthersPass(rules.applicability, anchor, 0, e, checks.matches);
      if app.Ok? {
        if !app.value {
          ScanBalances(rules, anchor, els, k + 1, run, checks);
        } else {
          var run0 := run.(applicable := run.applicable + [e]);
          var r := Account(rules.requirements, 0, e, run0, rules.maxOccurs, checks.matches, checks.render);
          AccountCounts(rules.requirements, 0, e, run0, rules.maxOccurs, checks.matches, checks.render);
          if r.out.Ok? {
            assert (|run.applicable| + 1) * n == |run.applicable| * n + n;
            var c := Conclude(r.run, n, rules.minOccurs, rules.maxOccurs);
            ScanBalances(rules, anchor, els, k + 1, c, checks);
          }
        }
      }
    }
  }

  /** Once an element has been accepted, the run stays settled to the end of the loop. */
  lemma {:induction false} ScanSettles(rules: Ruleset, anchor: nat, els: seq<Oid>, k: nat, run: Run, checks: Checks)
    requires k <= |els| && Shaped(run, |rules.requirements|)
    ensures var r := Scan(rules, anchor, els, k, run, checks);
      r.out.Ok? && (Settled(run, rules) || |r.run.applicable| > |run.applicable|) ==> Settled(r.run, rules)
    decreases |els| - k
  {
    var n := |rules.requirements|;
    if k < |els| {
      var e := els[k];
      var app := OthersPass(rules.applicability, anchor, 0, e, checks.matches);
      if app.Ok? {
        if !app.value {
          ScanSettles(rules, anchor, els, k + 1, run, checks);
        } else {
          var run0 := run.(applicable := run.applicable + [e]);
          var r := Account(rules.requirements, 0, e, run0, rules.maxOccurs, checks.matches, checks.render);
          AccountCounts(rules.requirements, 0, e, run0, rules.maxOccurs, checks.matches, checks.render);
          if r.out.Ok? {
            ConcludeSettles(r.run, rules);
            var c := Conclude(r.run, n, rules.minOccurs, rules.maxOccurs);
            ScanSettles(rules, anchor, els, k + 1, c, checks);
          }
        }
      }
    }
  }

  /** A schema whose version is known but not listed records only the flag, false. */
  lemma UnsupportedRecordsOnlyFlag(schema: string, rules: Ruleset, run: Run, checks: Checks)
    requires Shaped(run, |rules.requirements|)
    requires ProjectVersion(schema).Ok? && ProjectVersion(schema).value !in rules.versions
    ensures ValidateSpec(schema, rules, run, checks) == Reached(run.(supported := Some(false)), Ok(()))
  {
  }

  /** Once it completes, `validate` books one entry per (applicable element, requirement), and
      leaves a settled status whenever some element was applicable. */
  lemma ValidateAccounts(schema: string, rules: Ruleset, run: Run, checks: Checks)
    requires Shaped(run, |rules.requirements|) && Balanced(run, |rules.requirements|)
    ensures var r := ValidateSpec(schema, rules, run, checks);
      r.out.Ok? ==> Balanced(r.run, |rules.requirements|)
                    && (|r.run.applicable| > |run.applicable| ==> Settled(r.run, rules))
  {
    var v := ProjectVersion(schema);
    if v.Ok? && v.value in rules.versions && rules.applicability != [] {
      var run1 := run.(supported := Some(true));
      var anchor := Anchor(rules.applicability);
      var found := checks.filter(rules.applicability[anchor]);
      if found.Ok? && found.value.Some? {
        ScanBalances(rules, anchor, found.value.value, 0, run1, checks);
        ScanSettles(rules, anchor, found.value.value, 0, run1, checks);
      }
    }
  }

  lemma {:induction false} ScanRejectsAll(rules: Ruleset, anchor: nat, els: seq<Oid>, k: nat, run: Run, checks: Checks)
    requires k <= |els| && Shaped(run, |rules.requirements|)
    requires forall e :: e in els ==> OthersPass(rules.applicability, anchor, 0, e, checks.matches) == Ok(false)
    ensures Scan(rules, anchor, els, k, run, checks) == Reached(run, Ok(()))
    decreases |els| - k
  {
    if k < |els| {
      assert els[k] in els;
      ScanRejectsAll(rules, anchor, els, k + 1, run, checks);
    }
  }

  /** Past the version gate, `validate` is the element loop over the anchor's candidates
      followed by the status check of the log line. */
  lemma ValidateScans(schema: string, rules: Ruleset, run: Run, checks: Checks, els: seq<Oid>)
    requires Shaped(run, |rules.requirements|)
    requires ProjectVersion(schema).Ok? && ProjectVersion(schema).value in rules.versions
    requires rules.applicability != []
    requires checks.filter(rules.applicability[Anchor(rules.applicability)]) == Ok(Some(els))
    ensures var r := Scan(rules, Anchor(rules.applicability), els, 0, run.(supported := Some(true)), checks);
      ValidateSpec(schema, rules, run, checks)
      == (if r.out.Ok? && r.run.status.None? then Reached(r.run, Throws(NullPointer)) else r)
  {
  }

  /** When no candidate is applicable, a status left null by an earlier reset makes the closing
      log line throw. */
  lemma NothingApplicableThrows(schema: string, rules: Ruleset, run: Run, checks: Checks, els: seq<Oid>)
    requires Shaped(run, |rules.requirements|) && run.status.None?
    requires ProjectVersion(schema).Ok? && ProjectVersion(schema).value in rules.versions
    requires rules.applicability != []
    requires checks.filter(rules.applicability[Anchor(rules.applicability)]) == Ok(Some(els))
    requires forall e :: e in els ==>
               OthersPass(rules.applicability, Anchor(rules.applicability), 0, e, checks.matches) == Ok(false)
    ensures ValidateSpec(schema, rules, run, checks) == Reached(run.(supported := Some(true)), Throws(NullPointer))
  {
    var anchor := Anchor(rules.applicability);
    ValidateScans(schema, rules, run, checks, els);
    ScanRejectsAll(rules, anchor, els, 0, run.(supported := Some(true)), checks);
  }

  // ---------------------------------------------------------------------------
  // The specification object

  /** Name and descriptive fields. */
  datatype Header = Header(name: string, identifier: Option<string>, description: Option<string>,
                           instructions: Option<string>, cardinality: Option<string>)

  class Specification {
    var name: string
    var ifcVersion: seq<IfcVersion>
    var identifier: Option<string>
    var description: Option<string>
    var instructions: Option<string>
    var minOccurs: Option<string>
    var maxOccurs: Option<string>
    /** The value `setCardinality` stores: the last requirement's raw cardinality. */
    var cardinality: Option<string>
    var applicability: seq<FacetDecl>
    var requirements: seq<FacetDecl>
    var supported: Option<bool>
    var applicable: seq<Oid>
    var passed: seq<Oid>
    var failed: seq<Oid>
    var facetPassed: seq<seq<Oid>>
    var facetFailures: seq<seq<Failure>>
    var facetStatus: seq<Option<bool>>
    var status: Option<bool>

    /** One run-state entry per requirement facet. */
    predicate Valid()
      reads this
    {
      Shaped(State(), |requirements|)
    }

    function Info(): Header
      reads this
    {
      Header(name, identifier, description, instructions, cardinality)
    }

    function Rules(): Ruleset
      reads this
    {
      Ruleset(ifcVersion, applicability, requirements, minOccurs, maxOccurs)
    }

    function State(): Run
      reads this
    {
      Run(supported, applicable, passed, failed, facetPassed, facetFailures, facetStatus, status)
    }

    constructor()
      ensures Valid()
      ensures Info() == Header("Unnamed", None, None, None, None)
      ensures Rules() == Ruleset([], [], [], None, None)
      ensures State() == Run(None, [], [], [], [], [], [], None)
    {
      name := "Unnamed";
      ifcVersion := [];
      identifier := None;
      description := None;
      instructions := None;
      minOccurs := None;
      maxOccurs := None;
      cardinality := None;
      applicability := [];
      requirements := [];
      supported := None;
      applicable := [];
      passed := [];
      failed := [];
      facetPassed := [];
      facetFailures := [];
      facetStatus := [];
      status := None;
    }

    /** `setName`: a null or blank name becomes "Unnamed"; the name is never blank. */
    method SetName(n: Option<string>)
      modifies this`name
      ensures name == (if NullOrBlank(n) then "Unnamed" else n.value)
      ensures !IsBlank(name)
    {
      if NullOrBlank(n) {
        name := "Unnamed";
        assert !IsWhitespace(name[0]);
      } else {
        name := n.value;
      }
    }

    /** Appends a requirement facet with a fresh run state (no passes, no failures, no status). */
    method AddRequirement(f: FacetDecl)
      requires Valid()
      modifies this`requirements, this`facetPassed, this`facetFailures, this`facetStatus
      ensures Valid()
      ensures requirements == old(requirements) + [f]
      ensures State() == old(State()).(facetPassed := old(facetPassed) + [[]],
                                       facetFailures := old(facetFailures) + [[]],
                                       facetStatus := old(facetStatus) + [None])
    {
      requirements := requirements + [f];
      facetPassed := facetPassed + [[]];
      facetFailures := facetFailures + [[]];
      facetStatus := facetStatus + [None];
    }

    /** `reset_status`, read as restoring everything `validate` computes to its initial value. */
    method ResetStatus()
      requires Valid()
      modifies this`supported, this`applicable, this`passed, this`failed, this`facetPassed,
               this`facetFailures, this`facetStatus, this`status
      ensures Valid()
      ensures State() == Cleanly(|requirements|)
    {
      var z := Cleanly(|requirements|);
      supported, applicable, passed, failed := z.supported, z.applicable, z.passed, z.failed;
      facetPassed, facetFailures, facetStatus, status := z.facetPassed, z.facetFailures, z.facetStatus, z.status;
    }

    /** `setApplicable_entities`, read as replacing the applicable list. */
    method SetApplicableEntities(xs: seq<Oid>)
      requires Valid()
      modifies this`supported, this`applicable, this`passed, this`failed, this`facetPassed,
               this`facetFailures, this`facetStatus, this`status
      ensures Valid()
      ensures State() == old(State()).(applicable := xs)
    {
      applicable := xs;
    }

    /** `check_ifc_version`: records whether the project's version is listed; an unknown
        schema throws before anything is recorded. */
    method CheckIfcVersion(schema: string) returns (r: Outcome<bool>)
      requires Valid()
      modifies this`supported, this`applicable, this`passed, this`failed, this`facetPassed,
               this`facetFailures, this`facetStatus, this`status
      ensures Valid()
      ensures r.Ok? <==> ProjectVersion(schema).Ok?
      ensures r.Ok? ==> r.value == (ProjectVersion(schema).value in ifcVersion)
                        && State() == old(State()).(supported := Some(r.value))
      ensures !r.Ok? ==> r == Throws(IllegalArgument) && State() == old(State())
    {
      var v := ProjectVersion(schema);
      if !v.Ok? {
        return v.PropagateFailure();
      }
      supported := Some(v.value in ifcVersion);
      return Ok(v.value in ifcVersion);
    }

    /** The applicability test for one element, against every facet but the anchor. */
    method OthersPassFor(e: Oid, anchor: nat, matches: Matcher) returns (r: Outcome<bool>)
      ensures r == OthersPass(applicability, anchor, 0, e, matches)
    {
      var k := 0;
      while k < |applicability|
        invariant 0 <= k <= |applicability|
        invariant OthersPass(applicability, anchor, k, e, matches) == OthersPass(applicability, anchor, 0, e, matches)
      {
        if k != anchor {
          var res :- matches(applicability[k], e);
          if !res.isPass {
            return Ok(false);
          }
        }
        k := k + 1;
      }
      return Ok(true);
    }

    /** The requirement loop for one applicable element. */
    method AccountFor(e: Oid, matches: Matcher, render: Renderer) returns (out: Outcome<()>)
      requires Valid()
      modifies this`supported, this`applicable, this`passed, this`failed, this`facetPassed,
               this`facetFailures, this`facetStatus, this`status
      ensures Valid()
      ensures Reached(State(), out) == Account(requirements, 0, e, old(State()), maxOccurs, matches, render)
    {
      var j := 0;
      while j < |requirements|
        invariant 0 <= j <= |requirements|
        invariant Valid()
        invariant Account(requirements, j, e, State(), maxOccurs, matches, render)
                  == Account(requirements, 0, e, old(State()), maxOccurs, matches, render)
      {
        var res := matches(requirements[j], e);
        if !res.Ok? {
          return res.PropagateFailure();
        }
        if res.value.isPass != Prohibited(maxOccurs) {
          passed := passed + [e];
          facetPassed := facetPassed[j := facetPassed[j] + [e]];
        } else {
          failed := failed + [e];
          var msg := render(requirements[j], res.value);
          if !msg.Ok? {
            return msg.PropagateFailure();
          }
          facetFailures := facetFailures[j := facetFailures[j] + [Failure(e, msg.value)]];
        }
        j := j + 1;
      }
      return Ok(());
    }

    /** The status fold: every requirement facet's status is "no failures recorded", and the
        specification's status is their AND. */
    method FoldStatus()
      requires Valid()
      modifies this`facetStatus, this`status
      ensures Valid()
      ensures facetStatus == StatusOf(facetFailures) && status == Some(Cleared(facetFailures))
    {
      var n := |requirements|;
      status := Some(true);
      var i := 0;
      while i < n
        invariant 0 <= i <= n && |facetStatus| == n
        invariant forall k :: 0 <= k < i ==> facetStatus[k] == Some(facetFailures[k] == [])
        invariant status == Some(Cleared(facetFailures[..i]))
      {
        facetStatus := facetStatus[i := Some(facetFailures[i] == [])];
        if facetStatus[i] != Some(true) {
          status := Some(false);
        }
        assert facetFailures[..i + 1] == facetFailures[..i] + [facetFailures[i]];
        i := i + 1;
      }
      assert facetFailures[..n] == facetFailures;
    }

    /** The branch of the required-but-empty check: the status and every requirement facet's status fail. */
    method FailAll()
      requires Valid()
      modifies this`facetStatus, this`status
      ensures Valid()
      ensures facetStatus == Repeat(Some(false), |requirements|) && status == Some(false)
    {
      var n := |requirements|;
      status := Some(false);
      var k := 0;
      while k < n
        invariant 0 <= k <= n && |facetStatus| == n
        invariant forall m :: 0 <= m < k ==> facetStatus[m] == Some(false)
        invariant status == Some(false)
      {
        facetStatus := facetStatus[k := Some(false)];
        k := k + 1;
      }
      assert facetStatus == Repeat(Some(false), n);
    }

    /** The status fold and the occurrence checks that follow an applicable element. */
    method ConcludeElement()
      requires Valid()
      modifies this`facetStatus, this`status
      ensures Valid()
      ensures State() == Conclude(old(State()), |requirements|, minOccurs, maxOccurs)
    {
      FoldStatus();
      if minOccurs != Some("0") {
        if applicable == [] {
          FailAll();
        }
      } else if Prohibited(maxOccurs) {
        if applicable != [] && |requirements| == 0 {
          status := Some(false);
        }
      }
    }

    /** The element loop of `validate`, over the anchor's candidates. */
    method ScanElements(anchor: nat, elements: seq<Oid>, checks: Checks) returns (out: Outcome<()>)
      requires Valid()
      modifies this`supported, this`applicable, this`passed, this`failed, this`facetPassed,
               this`facetFailures, this`facetStatus, this`status
      ensures Valid()
      ensures Reached(State(), out) == Scan(Rules(), anchor, elements, 0, old(State()), checks)
    {
      var k := 0;
      while k < |elements|
        invariant 0 <= k <= |elements|
        invariant Valid()
        invariant Scan(Rules(), anchor, elements, k, State(), checks) == Scan(Rules(), anchor, elements, 0, old(State()), checks)
      {
        var e := elements[k];
        var isApplicable :- OthersPassFor(e, anchor, checks.matches);
        if isApplicable {
          applicable := applicable + [e];
          var done := AccountFor(e, checks.matches, checks.render);
          if !done.Ok? {
            return done;
          }
          ConcludeElement();
        }
        k := k + 1;
      }
      return Ok(());
    }

    /** `validate`: the version gate, the anchor's candidates, the applicability test, the
        accounting and the status fold, then the log line that unboxes the status. */
    method Validate(schema: string, checks: Checks) returns (r: Outcome<()>)
      requires Valid()
      modifies this`supported, this`applicable, this`passed, this`failed, this`facetPassed,
               this`facetFailures, this`facetStatus, this`status
      ensures Valid()
      ensures Reached(State(), r) == ValidateSpec(schema, old(Rules()), old(State()), checks)
    {
      var isSupported :- CheckIfcVersion(schema);
      if !isSupported || applicability == [] {
        return Ok(());
      }
      var anchor := Anchor(applicability);
      var found := checks.filter(applicability[anchor]);
      if !found.Ok? {
        return found.PropagateFailure();
      }
      if found.value.None? {
        return Throws(NullPointer);
      }
      ValidateScans(schema, Rules(), old(State()), checks, found.value.value);
      var done := ScanElements(anchor, found.value.value, checks);
      if !done.Ok? {
        return done;
      }
      if status.None? {
        return Throws(NullPointer);
      }
      return done;
    }
  }
}
