// The plain-text report: an append-only text buffer that prints a banner, the
// document's non-null info entries, and per specification a headline (marker,
// success ratio, name), its applicability facets, and its requirement facets
// each followed by the failures recorded against it.

module TextReports {
  import opened Wrappers
  import opened JavaStrings
  import opened IfcModel
  import opened OrderedMaps
  import opened FacetDecls
  import opened Specifications
  import opened IdsDocuments

  /** `Facet.to_string(kind, ...)`: the facet's own one-line description, given as a parameter. */
  type Describe = (string, FacetDecl) -> string

  /** A specification as the report reads it: its header, its rules and its run state. */
  type Page = (Header, Ruleset, Run)

  /** `String.valueOf` of a `long`. */
  function IntToString(i: int): (r: string)
    ensures |r| > 0
    ensures i >= 0 ==> r == NatToString(i)
    ensures i < 0 ==> r[0] == '-' && r[1..] == NatToString(-i)
  {
    if i < 0 then "-" + NatToString(-i) else NatToString(i)
  }

  /** Java's `int` division, which truncates toward zero (the divisor here is positive). */
  function JavaDiv(a: int, b: int): (q: int)
    requires b > 0
    ensures a >= 0 ==> q == a / b
    ensures a < 0 ==> q == -((-a) / b)
  {
    if a >= 0 then a / b else -((-a) / b)
  }

  /** The count of line breaks in a text. */
  function NewLines(s: string): nat {
    if s == [] then 0 else (if s[0] == '\n' then 1 else 0) + NewLines(s[1..])
  }

  lemma {:induction false} NewLinesAppend(a: string, b: string)
    ensures NewLines(a + b) == NewLines(a) + NewLines(b)
  {
    if a != [] {
      assert (a + b)[1..] == a[1..] + b;
      NewLinesAppend(a[1..], b);
    } else {
      assert a + b == b;
    }
  }

  lemma {:induction false} NoNewLines(s: string)
    requires forall i :: 0 <= i < |s| ==> s[i] != '\n'
    ensures NewLines(s) == 0
  {
    if s != [] {
      NoNewLines(s[1..]);
    }
  }

  lemma PrefixOfAppend(s: string, p: string, t: string)
    requires StartsWith(s, p)
    ensures StartsWith(s + t, p)
  {
    assert (s + t)[..|p|] == s[..|p|];
  }

  /** Regrouping appended text. */
  lemma Assoc(a: string, b: string, c: string)
    ensures a + b + c == a + (b + c)
  {
  }

  // ---------------------------------------------------------------------------------------------
  // The text, as functions of what the report reads

  /** A printed line: the text and a line break. */
  function Line(s: string): string {
    s + "\n"
  }

  const Banner := Line("IDS Report") + Line("==========") + Line("")

  /** One info entry: "key: value" when the value is not null, else nothing. */
  function InfoLine(entry: (string, Option<string>)): string {
    if entry.1.Some? then Line(entry.0 + ": " + entry.1.value) else ""
  }

  /** The info block, in map order. */
  function InfoLines(info: Entries<Option<string>>): string {
    if info == [] then "" else InfoLine(info[0]) + InfoLines(info[1..])
  }

  function Marker(status: bool): string {
    if status then "[PASS] " else "[FAIL] "
  }

  /** The ratio column: "No applicable entities" when nothing is applicable or nothing succeeded,
      else the truncated quotient of successes over applicable elements. */
  function Ratio(total: nat, failed: nat): string {
    var success := total - failed;
    if total == 0 || success == 0 then "No applicable entities"
    else IntToString(JavaDiv(success, total))
  }

  /** " | " unless minOccurs is exactly "0" (a null minOccurs is not "0"). */
  function Separator(minOccurs: Option<string>): string {
    if minOccurs != Some("0") then " | " else ""
  }

  /** The headline of a specification whose status is set. */
  function Headline(page: Page): string
    requires page.2.status.Some?
  {
    Marker(page.2.status.value) + Ratio(|page.2.applicable|, |page.2.failed|)
    + Separator(page.1.minOccurs) + Line(page.0.name)
  }

  /** One line per facet from `k` on, indented by eight spaces. */
  function FacetLines(kind: string, facets: seq<FacetDecl>, k: nat, describe: Describe): string
    decreases |facets| - k
  {
    if k >= |facets| then ""
    else Line(Spaces(8) + describe(kind, facets[k])) + FacetLines(kind, facets, k + 1, describe)
  }

  /** `reportReason`: the reason, then the element's oid. */
  function ReasonLine(f: Failure): string {
    f.reason + Line(" - oid: " + IntToString(f.element))
  }

  /** The failures from `k` on, each indented by twelve spaces. */
  function FailureLines(fs: seq<Failure>, k: nat): string
    decreases |fs| - k
  {
    if k >= |fs| then "" else Spaces(12) + ReasonLine(fs[k]) + FailureLines(fs, k + 1)
  }

  /** A requirement facet's line followed by its failures. */
  function RequirementBlock(req: FacetDecl, fails: seq<Failure>, describe: Describe): string {
    Line(Spaces(8) + describe("requirement", req)) + FailureLines(fails, 0)
  }

  /** The failures recorded against requirement `k` (one list per requirement facet). */
  function FailuresAt(fails: seq<seq<Failure>>, k: nat): seq<Failure> {
    if k < |fails| then fails[k] else []
  }

  /** The requirement facets from `k` on. */
  function RequirementLines(reqs: seq<FacetDecl>, fails: seq<seq<Failure>>, k: nat, describe: Describe): string
    decreases |reqs| - k
  {
    if k >= |reqs| then ""
    else RequirementBlock(reqs[k], FailuresAt(fails, k), describe) + RequirementLines(reqs, fails, k + 1, describe)
  }

  /** `reportSpecification`: the status is unboxed first, so a null status prints nothing and
      throws; otherwise the headline and the two facet sections. */
  function SpecText(page: Page, describe: Describe): (r: (string, Outcome<()>))
    ensures r.1.Ok? <==> page.2.status.Some?
    ensures !r.1.Ok? ==> r == ("", Throws(NullPointer))
  {
    if page.2.status.None? then ("", Throws(NullPointer))
    else
      (Headline(page)
       + Line(Spaces(4) + "Applies to:") + FacetLines("applicability", page.1.applicability, 0, describe)
       + Line(Spaces(4) + "Requirements:")
       + RequirementLines(page.1.requirements, page.2.facetFailures, 0, describe),
       Ok(()))
  }

  /** The specifications from `k` on; the first one that throws ends the report. */
  function Sections(pages: seq<Page>, k: nat, describe: Describe): (r: (string, Outcome<()>))
    ensures r.1.Ok? <==> forall i :: k <= i < |pages| ==> pages[i].2.status.Some?
    ensures !r.1.Ok? ==> r.1 == Throws(NullPointer)
    decreases |pages| - k
  {
    if k >= |pages| then ("", Ok(()))
    else
      var s := SpecText(pages[k], describe);
      if !s.1.Ok? then s
      else
        var rest := Sections(pages, k + 1, describe);
        (s.0 + rest.0, rest.1)
  }

  /** `report`: the banner, the info block, a blank line, then the specifications. */
  function ReportText(info: Entries<Option<string>>, pages: seq<Page>, describe: Describe): (r: (string, Outcome<()>))
    ensures r.1.Ok? <==> forall i :: 0 <= i < |pages| ==> pages[i].2.status.Some?
  {
    var s := Sections(pages, 0, describe);
    (Banner + InfoLines(info) + Line("") + s.0, s.1)
  }

  // ---------------------------------------------------------------------------------------------
  // Properties of the text

  /** A specification's text opens with its marker: "[PASS] " for a true status, "[FAIL] " for
      a false one. */
  lemma SpecTextOpensWithMarker(page: Page, describe: Describe)
    requires page.2.status.Some?
    ensures StartsWith(SpecText(page, describe).0, Marker(page.2.status.value))
    ensures Marker(page.2.status.value) == if page.2.status.value then "[PASS] " else "[FAIL] "
  {
    var m := Marker(page.2.status.value);
    var rest := Ratio(|page.2.applicable|, |page.2.failed|) + Separator(page.1.minOccurs) + Line(page.0.name);
    assert StartsWith(m + rest, m) by { assert (m + rest)[..|m|] == m; }
    assert Headline(page) == m + rest;
    var h := Headline(page);
    var a := Line(Spaces(4) + "Applies to:");
    var f := FacetLines("applicability", page.1.applicability, 0, describe);
    var q := Line(Spaces(4) + "Requirements:");
    PrefixOfAppend(h, m, a);
    PrefixOfAppend(h + a, m, f);
    PrefixOfAppend(h + a + f, m, q);
    PrefixOfAppend(h + a + f + q, m, RequirementLines(page.1.requirements, page.2.facetFailures, 0, describe));
  }

  /** Whatever follows, the report opens with the banner. */
  lemma ReportOpensWithBanner(info: Entries<Option<string>>, pages: seq<Page>, describe: Describe)
    ensures StartsWith(ReportText(info, pages, describe).0, Banner)
  {
    var s := Sections(pages, 0, describe);
    assert StartsWith(Banner, Banner);
    PrefixOfAppend(Banner, Banner, InfoLines(info));
    PrefixOfAppend(Banner + InfoLines(info), Banner, Line(""));
    PrefixOfAppend(Banner + InfoLines(info) + Line(""), Banner, s.0);
  }

  lemma {:induction false} InfoLinesAppend(a: Entries<Option<string>>, b: Entries<Option<string>>)
    ensures InfoLines(a + b) == InfoLines(a) + InfoLines(b)
  {
    if a != [] {
      assert (a + b)[1..] == a[1..] + b;
      InfoLinesAppend(a[1..], b);
    } else {
      assert a + b == b;
    }
  }

  /** An info entry whose value is null prints nothing, wherever it stands. */
  lemma NullInfoSkipped(a: Entries<Option<string>>, key: string, b: Entries<Option<string>>)
    ensures InfoLines(a + [(key, None)] + b) == InfoLines(a + b)
  {
    InfoLinesAppend(a + [(key, None)], b);
    InfoLinesAppend(a, [(key, None)]);
    InfoLinesAppend(a, b);
  }

  /** The ratio column, case by case: with applicable elements it is "1" when nothing failed,
      "0" when some but not all failed (or up to twice as many failures as elements), the
      no-entities text when exactly all failed, and negative beyond that. */
  lemma RatioCases(total: nat, failed: nat)
    ensures total == 0 ==> Ratio(total, failed) == "No applicable entities"
    ensures total > 0 && failed == 0 ==> Ratio(total, failed) == "1"
    ensures total > 0 && failed == total ==> Ratio(total, failed) == "No applicable entities"
    ensures total > 0 && 0 < failed < 2 * total && failed != total ==> Ratio(total, failed) == "0"
    ensures total > 0 && failed >= 2 * total ==> Ratio(total, failed)[0] == '-'
  {
    if total > 0 {
      var success := total - failed;
      if failed == 0 {
        DivSelf(total);
        assert IntToString(JavaDiv(success, total)) == NatToString(1);
      } else if 0 < failed < total {
        DivBelow(success, total);
        assert IntToString(JavaDiv(success, total)) == NatToString(0);
      } else if total < failed < 2 * total {
        DivBelow(-success, total);
        assert IntToString(JavaDiv(success, total)) == NatToString(0);
      } else if failed >= 2 * total {
        DivAtLeastOne(-success, total);
      }
    }
  }

  lemma DivSelf(b: int)
    requires b > 0
    ensures b / b == 1
  {
  }

  lemma DivBelow(a: int, b: int)
    requires 0 <= a < b
    ensures a / b == 0
  {
  }

  lemma DivAtLeastOne(a: int, b: int)
    requires 0 < b <= a
    ensures a / b >= 1
  {
  }

  /** A printed line holds exactly one line break when its text holds none. */
  lemma LineHasOneBreak(s: string)
    requires NewLines(s) == 0
    ensures NewLines(Line(s)) == 1
  {
    NewLinesAppend(s, "\n");
  }

  /** A number's text holds no line break. */
  lemma NumberHasNoBreak(i: int)
    ensures NewLines(IntToString(i)) == 0
  {
    if i < 0 {
      NoNewLines(NatToString(-i));
      NewLinesAppend("-", NatToString(-i));
    } else {
      NoNewLines(NatToString(i));
    }
  }

  /** A failure prints on one line of its own. */
  lemma FailureHasOneBreak(f: Failure)
    requires '\n' !in f.reason
    ensures NewLines(Spaces(12) + ReasonLine(f)) == 1
  {
    var n := IntToString(f.element);
    NumberHasNoBreak(f.element);
    NoNewLines(" - oid: ");
    NewLinesAppend(" - oid: ", n);
    LineHasOneBreak(" - oid: " + n);
    NoNewLines(f.reason);
    NewLinesAppend(f.reason, Line(" - oid: " + n));
    NoNewLines(Spaces(12));
    NewLinesAppend(Spaces(12), ReasonLine(f));
  }

  /** Every failure line ends in a line break of its own. */
  lemma {:induction false} FailureLinesCount(fs: seq<Failure>, k: nat)
    requires k <= |fs|
    requires forall f :: f in fs ==> '\n' !in f.reason
    ensures NewLines(FailureLines(fs, k)) == |fs| - k
    decreases |fs| - k
  {
    if k < |fs| {
      FailureHasOneBreak(fs[k]);
      NewLinesAppend(Spaces(12) + ReasonLine(fs[k]), FailureLines(fs, k + 1));
      FailureLinesCount(fs, k + 1);
    }
  }

  /** The number of failures recorded from facet `k` on. */
  function FailureCount(fails: seq<seq<Failure>>, k: nat): nat
    requires k <= |fails|
    decreases |fails| - k
  {
    if k == |fails| then 0 else |fails[k]| + FailureCount(fails, k + 1)
  }

  /** The requirements section has one line per requirement facet plus one per recorded
      failure, provided no description or reason itself breaks a line. */
  lemma {:induction false} RequirementLinesCount(reqs: seq<FacetDecl>, fails: seq<seq<Failure>>, k: nat,
                                                 describe: Describe)
    requires |fails| == |reqs| && k <= |reqs|
    requires forall i :: 0 <= i < |reqs| ==> '\n' !in describe("requirement", reqs[i])
    requires forall i, f :: 0 <= i < |fails| && f in fails[i] ==> '\n' !in f.reason
    ensures NewLines(RequirementLines(reqs, fails, k, describe)) == (|reqs| - k) + FailureCount(fails, k)
    decreases |reqs| - k
  {
    if k < |reqs| {
      var d := describe("requirement", reqs[k]);
      NoNewLines(Spaces(8));
      NoNewLines(d);
      NewLinesAppend(Spaces(8), d);
      LineHasOneBreak(Spaces(8) + d);
      FailureLinesCount(fails[k], 0);
      NewLinesAppend(Line(Spaces(8) + d), FailureLines(fails[k], 0));
      NewLinesAppend(RequirementBlock(reqs[k], FailuresAt(fails, k), describe), RequirementLines(reqs, fails, k + 1, describe));
      RequirementLinesCount(reqs, fails, k + 1, describe);
    }
  }

  // ---------------------------------------------------------------------------------------------
  // The report object

  /** A specification's page. */
  function PageOf(spec: Specification): Page
    reads spec
  {
    (spec.Info(), spec.Rules(), spec.State())
  }

  /** The document's specifications as pages. */
  function Pages(specs: seq<Specification>): (r: seq<Page>)
    reads set s | s in specs
    ensures |r| == |specs|
    ensures forall i :: 0 <= i < |specs| ==> r[i] == PageOf(specs[i])
  {
    if specs == [] then [] else [PageOf(specs[0])] + Pages(specs[1..])
  }

  class TextReport {
    const ids: Ids
    /** Everything printed so far. */
    var text: string

    constructor(ids: Ids)
      ensures this.ids == ids && text == ""
    {
      this.ids := ids;
      text := "";
    }

    /** `print(line)`: the line and a line break. */
    method Print(line: string)
      modifies this`text
      ensures text == old(text) + Line(line)
    {
      text := text + Line(line);
    }

    /** `print(txt, end)`. */
    method PrintEnd(txt: string, end: string)
      modifies this`text
      ensures text == old(text) + txt + end
    {
      text := text + txt + end;
    }

    /** `to_string`: everything printed so far. */
    method ToString() returns (s: string)
      ensures s == text
    {
      s := text;
    }

    /** `print(txt, "")`: the text alone. */
    method PrintBare(txt: string)
      modifies this`text
      ensures text == old(text) + txt
    {
      PrintEnd(txt, "");
      assert txt + "" == txt;
      Assoc(old(text), txt, "");
    }

    /** Prints one line per facet, indented by eight spaces. */
    method PrintFacets(kind: string, facets: seq<FacetDecl>, describe: Describe)
      modifies this`text
      ensures text == old(text) + FacetLines(kind, facets, 0, describe)
    {
      var j := 0;
      while j < |facets|
        invariant 0 <= j <= |facets|
        invariant text + FacetLines(kind, facets, j, describe) == old(text) + FacetLines(kind, facets, 0, describe)
      {
        ghost var t := text;
        Print(Spaces(8) + describe(kind, facets[j]));
        Assoc(t, Line(Spaces(8) + describe(kind, facets[j])), FacetLines(kind, facets, j + 1, describe));
        j := j + 1;
      }
    }

    /** `reportReason`. */
    method ReportReason(f: Failure)
      modifies this`text
      ensures text == old(text) + ReasonLine(f)
    {
      PrintBare(f.reason);
      Print(" - oid: " + IntToString(f.element));
      Assoc(old(text), f.reason, Line(" - oid: " + IntToString(f.element)));
    }

    /** One failure, indented by twelve spaces. */
    method PrintFailure(f: Failure)
      modifies this`text
      ensures text == old(text) + (Spaces(12) + ReasonLine(f))
    {
      PrintBare(Spaces(12));
      ReportReason(f);
      Assoc(old(text), Spaces(12), ReasonLine(f));
    }

    /** Prints a facet's recorded failures. */
    method PrintFailures(fs: seq<Failure>)
      modifies this`text
      ensures text == old(text) + FailureLines(fs, 0)
    {
      var m := 0;
      while m < |fs|
        invariant 0 <= m <= |fs|
        invariant text + FailureLines(fs, m) == old(text) + FailureLines(fs, 0)
      {
        ghost var t := text;
        PrintFailure(fs[m]);
        Assoc(t, Spaces(12) + ReasonLine(fs[m]), FailureLines(fs, m + 1));
        m := m + 1;
      }
    }

    /** A requirement facet's line, then its failures. */
    method PrintRequirement(req: FacetDecl, fails: seq<Failure>, describe: Describe)
      modifies this`text
      ensures text == old(text) + RequirementBlock(req, fails, describe)
    {
      Print(Spaces(8) + describe("requirement", req));
      PrintFailures(fails);
      Assoc(old(text), Line(Spaces(8) + describe("requirement", req)), FailureLines(fails, 0));
    }

    /** Prints each requirement facet followed by its failures. */
    method PrintRequirements(reqs: seq<FacetDecl>, fails: seq<seq<Failure>>, describe: Describe)
      modifies this`text
      ensures text == old(text) + RequirementLines(reqs, fails, 0, describe)
    {
      var i := 0;
      while i < |reqs|
        invariant 0 <= i <= |reqs|
        invariant text + RequirementLines(reqs, fails, i, describe)
                  == old(text) + RequirementLines(reqs, fails, 0, describe)
      {
        ghost var t := text;
        PrintRequirement(reqs[i], FailuresAt(fails, i), describe);
        Assoc(t, RequirementBlock(reqs[i], FailuresAt(fails, i), describe), RequirementLines(reqs, fails, i + 1, describe));
        i := i + 1;
      }
    }

    /** The marker, the ratio column, the separator and the name. */
    method PrintHeadline(page: Page)
      requires page.2.status.Some?
      modifies this`text
      ensures text == old(text) + Headline(page)
    {
      var (h, rules, run) := page;
      if run.status.value {
        PrintBare("[PASS] ");
      } else {
        PrintBare("[FAIL] ");
      }
      var total := |run.applicable|;
      var totalSuccess := total - |run.failed|;
      if total == 0 || totalSuccess == 0 {
        PrintBare("No applicable entities");
      } else {
        PrintBare(IntToString(JavaDiv(totalSuccess, total)));
      }
      if rules.minOccurs != Some("0") {
        PrintBare(" | ");
      } else {
        assert text + "" == text;
      }
      Print(h.name);
      ghost var m := Marker(run.status.value);
      ghost var q := Ratio(|run.applicable|, |run.failed|);
      ghost var p := Separator(rules.minOccurs);
      assert text == old(text) + m + q + p + Line(h.name);
      Assoc(old(text), m, q);
      Assoc(old(text), m + q, p);
      Assoc(old(text), m + q + p, Line(h.name));
    }

    /** `reportSpecification`, on the specification's page. */
    method ReportSpecification(page: Page, describe: Describe) returns (r: Outcome<()>)
      modifies this`text
      ensures (text, r) == (old(text) + SpecText(page, describe).0, SpecText(page, describe).1)
    {
      var (_, rules, run) := page;
      if run.status.None? {
        assert old(text) + "" == old(text);
        return Throws(NullPointer);
      }
      PrintHeadline(page);
      ghost var h := Headline(page);
      Print(Spaces(4) + "Applies to:");
      ghost var a := Line(Spaces(4) + "Applies to:");
      PrintFacets("applicability", rules.applicability, describe);
      ghost var f := FacetLines("applicability", rules.applicability, 0, describe);
      Print(Spaces(4) + "Requirements:");
      ghost var q := Line(Spaces(4) + "Requirements:");
      PrintRequirements(rules.requirements, run.facetFailures, describe);
      ghost var l := RequirementLines(rules.requirements, run.facetFailures, 0, describe);
      assert text == old(text) + h + a + f + q + l;
      Assoc(old(text), h, a);
      Assoc(old(text), h + a, f);
      Assoc(old(text), h + a + f, q);
      Assoc(old(text), h + a + f + q, l);
      return Ok(());
    }

    /** `report`. The specifications are read into pages first; printing changes none of them. */
    method Report(describe: Describe) returns (r: Outcome<()>)
      modifies this`text
      ensures var report := ReportText(old(ids.info), old(Pages(ids.specifications)), describe);
              (text, r) == (old(text) + report.0, report.1)
    {
      var pages := Pages(ids.specifications);
      var info := ids.info;
      Print("IDS Report");
      Print("==========");
      Print("");
      Assoc(old(text), Line("IDS Report"), Line("=========="));
      Assoc(old(text), Line("IDS Report") + Line("=========="), Line(""));
      PrintInfo(info);
      Print("");
      Assoc(old(text), Banner, InfoLines(info));
      Assoc(old(text), Banner + InfoLines(info), Line(""));
      r := PrintSections(pages, describe);
      Assoc(old(text), Banner + InfoLines(info) + Line(""), Sections(pages, 0, describe).0);
    }

    /** The info entries whose value is not null, in map order. */
    method PrintInfo(info: Entries<Option<string>>)
      modifies this`text
      ensures text == old(text) + InfoLines(info)
    {
      var j := 0;
      while j < |info|
        invariant 0 <= j <= |info|
        invariant text + InfoLines(info[j..]) == old(text) + InfoLines(info)
      {
        assert info[j..][1..] == info[j + 1..];
        ghost var t := text;
        if info[j].1.Some? {
          Print(info[j].0 + ": " + info[j].1.value);
        } else {
          assert text == t + "";
        }
        Assoc(t, InfoLine(info[j]), InfoLines(info[j + 1..]));
        j := j + 1;
      }
      assert info[j..] == [];
      assert text + "" == text;
    }

    /** Each specification in turn, until one throws. */
    method PrintSections(pages: seq<Page>, describe: Describe) returns (r: Outcome<()>)
      modifies this`text
      ensures (text, r) == (old(text) + Sections(pages, 0, describe).0, Sections(pages, 0, describe).1)
    {
      var i := 0;
      while i < |pages|
        invariant 0 <= i <= |pages|
        invariant text + Sections(pages, i, describe).0 == old(text) + Sections(pages, 0, describe).0
        invariant Sections(pages, i, describe).1 == Sections(pages, 0, describe).1
      {
        ghost var t := text;
        ghost var page := SpecText(pages[i], describe);
        var out := ReportSpecification(pages[i], describe);
        if !out.Ok? {
          assert Sections(pages, i, describe) == page;
          return out;
        }
        ghost var rest := Sections(pages, i + 1, describe);
        assert Sections(pages, i, describe) == (page.0 + rest.0, rest.1);
        Assoc(t, page.0, rest.0);
        i := i + 1;
      }
      assert text + "" == text;
      return Ok(());
    }
  }
}
