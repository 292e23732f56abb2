/**
 * The attribute facet: finds the model objects whose class declares an attribute the name
 * matches, and, when a value is required, keeps those whose attribute value matches it.
 */
module AttributeFacet {
  import opened Wrappers
  import opened IfcModel
  import opened Values
  import Facets
  import Results
  import RestrictionValues

  datatype Attribute = Attribute(
    name: Option<Value>,
    value: Option<Value>,
    cardinality: Facets.Cardinality,
    instructions: Option<string>,
    applicabilityTemplate: string,
    requirementTemplate: string,
    prohibitedTemplate: string)

  /** `name.extract()` on a name that may be null. */
  function ExtractName(name: Option<Value>): (r: Outcome<string>)
    ensures r.Ok? <==> name.Some?
    ensures r.Ok? ==> r.value == Extract(name.value)
    ensures !r.Ok? ==> r == Throws(NullPointer)
  {
    if name.None? then Throws(NullPointer) else Ok(Extract(name.value))
  }

  /** `String.valueOf` of a value that may be null: its record text, or "null". */
  function ValueText(v: Option<Value>): string {
    if v.None? then "null" else RecordText(v.value)
  }

  /**
   * The constructor. Without a value the templates speak of `name.extract()` (so a null name
   * throws); with one they speak of the name's record text and the value's extract.
   */
  function Make(name: Option<Value>, value: Option<Value>, c: Facets.Cardinality, instructions: Option<string>): (r: Outcome<Attribute>)
    ensures r.Ok? <==> name.Some? || value.Some?
    ensures r.Ok? ==> r.value.name == name && r.value.value == value && r.value.cardinality == c
    ensures r.Ok? && value.None? ==>
      var n := Extract(name.value);
      && r.value.applicabilityTemplate == "Data where the " + n + " is provided"
      && r.value.requirementTemplate == "The " + n + " shall be provided"
      && r.value.prohibitedTemplate == "The " + n + " shall not be provided"
    ensures r.Ok? && value.Some? ==>
      var t, x := ValueText(name), Extract(value.value);
      && r.value.applicabilityTemplate == "Data where the " + t + " is " + x
      && r.value.requirementTemplate == "The " + t + " shall be " + x
      && r.value.prohibitedTemplate == "The " + t + " shall not be " + x
    ensures r.Ok? ==> r.value.instructions == instructions
  {
    if value.None? then
      var n :- ExtractName(name);
      Ok(Attribute(name, value, c, instructions,
        "Data where the " + n + " is provided",
        "The " + n + " shall be provided",
        "The " + n + " shall not be provided"))
    else
      var t := ValueText(name);
      var x := Extract(value.value);
      Ok(Attribute(name, value, c, instructions,
        "Data where the " + t + " is " + x,
        "The " + t + " shall be " + x,
        "The " + t + " shall not be " + x))
  }

  /** `name.matches(attributeName)` on a name that may be null. */
  function NameMatches(name: Option<Value>, attr: string, rx: RestrictionValues.Regex): (r: Outcome<bool>)
    ensures name.None? ==> r == Throws(NullPointer)
    ensures name.Some? ==> r == Values.Matches(name.value, Some(attr), rx)
  {
    if name.None? then Throws(NullPointer) else Values.Matches(name.value, Some(attr), rx)
  }

  /** `anyMatch` over a class's own attributes: stops at the first match or the first exception. */
  function DeclaresMatch(name: Option<Value>, attrs: seq<string>, rx: RestrictionValues.Regex): (r: Outcome<bool>)
    ensures r == Ok(true) ==> exists i :: 0 <= i < |attrs| && NameMatches(name, attrs[i], rx) == Ok(true)
    ensures r == Ok(false) ==> forall i :: 0 <= i < |attrs| ==> NameMatches(name, attrs[i], rx) == Ok(false)
    ensures r.Ok? || r.Throws?
  {
    if attrs == [] then Ok(false)
    else
      var b :- NameMatches(name, attrs[0], rx);
      if b then Ok(true)
      else
        var rest := DeclaresMatch(name, attrs[1..], rx);
        assert rest == Ok(true) ==> exists i :: 0 <= i < |attrs| && NameMatches(name, attrs[i], rx) == Ok(true) by {
          if rest == Ok(true) {
            var j :| 0 <= j < |attrs[1..]| && NameMatches(name, attrs[1..][j], rx) == Ok(true);
            assert attrs[j + 1] == attrs[1..][j];
          }
        }
        rest
  }

  /** The candidate walk from class list `classes` on, with `acc` collected so far. */
  function CollectFrom(m: Model, name: Option<Value>, rx: RestrictionValues.Regex, classes: seq<ClassDecl>, acc: seq<Oid>): Outcome<seq<Oid>>
    decreases classes
  {
    if classes == [] then Ok(acc)
    else
      var d :- DeclaresMatch(name, classes[0].attributes, rx);
      CollectFrom(m, name, rx, classes[1..],
        if d then AddUnseen(acc, AllWithSubTypes(m, classes[0].name, m.oids)) else acc)
  }

  /** The candidates: instances of every schema class declaring a matching attribute, once each. */
  function Candidates(f: Attribute, m: Model, rx: RestrictionValues.Regex): Outcome<seq<Oid>> {
    CollectFrom(m, f.name, rx, m.classes, [])
  }

  /** A class of `classes` declares a matching attribute and `x` is one of its instances. */
  predicate FoundIn(m: Model, name: Option<Value>, rx: RestrictionValues.Regex, classes: seq<ClassDecl>, x: Oid) {
    exists i :: 0 <= i < |classes| && DeclaresMatch(name, classes[i].attributes, rx) == Ok(true)
      && x in m.oids && x in m.objects && IsA(m, x, classes[i].name)
  }

  lemma {:induction false} CollectFromSpec(m: Model, name: Option<Value>, rx: RestrictionValues.Regex, classes: seq<ClassDecl>, acc: seq<Oid>)
    requires Distinct(acc)
    ensures var r := CollectFrom(m, name, rx, classes, acc);
      r.Ok? ==> Distinct(r.value) && forall x :: x in r.value <==> x in acc || FoundIn(m, name, rx, classes, x)
    decreases classes
  {
    if classes != [] {
      var d := DeclaresMatch(name, classes[0].attributes, rx);
      if d.Ok? {
        var all := AllWithSubTypes(m, classes[0].name, m.oids);
        var next := if d.value then AddUnseen(acc, all) else acc;
        AddUnseenSpec(acc, all);
        CollectFromSpec(m, name, rx, classes[1..], next);
        var r := CollectFrom(m, name, rx, classes, acc);
        if r.Ok? {
          forall x
            ensures x in r.value <==> x in acc || FoundIn(m, name, rx, classes, x)
          {
            if FoundIn(m, name, rx, classes, x) {
              var i :| 0 <= i < |classes| && DeclaresMatch(name, classes[i].attributes, rx) == Ok(true)
                && x in m.oids && x in m.objects && IsA(m, x, classes[i].name);
              if i > 0 {
                assert classes[i] == classes[1..][i - 1];
              }
            }
            if FoundIn(m, name, rx, classes[1..], x) {
              var i :| 0 <= i < |classes[1..]| && DeclaresMatch(name, classes[1..][i].attributes, rx) == Ok(true)
                && x in m.oids && x in m.objects && IsA(m, x, classes[1..][i].name);
              assert classes[1..][i] == classes[i + 1];
            }
          }
        }
      }
    }
  }

  /** Candidates are distinct and are exactly the instances of the classes declaring a match. */
  lemma CandidatesSpec(f: Attribute, m: Model, rx: RestrictionValues.Regex)
    ensures var r := Candidates(f, m, rx);
      r.Ok? ==> Distinct(r.value) && forall x :: x in r.value <==> FoundIn(m, f.name, rx, m.classes, x)
  {
    CollectFromSpec(m, f.name, rx, m.classes, []);
  }

  /** Every candidate is an object of the model. */
  lemma {:induction false} CollectFromLive(m: Model, name: Option<Value>, rx: RestrictionValues.Regex, classes: seq<ClassDecl>, acc: seq<Oid>)
    requires forall x :: x in acc ==> x in m.objects
    ensures var r := CollectFrom(m, name, rx, classes, acc);
      r.Ok? ==> forall x :: x in r.value ==> x in m.objects
    decreases classes
  {
    if classes != [] {
      var d := DeclaresMatch(name, classes[0].attributes, rx);
      if d.Ok? {
        var all := AllWithSubTypes(m, classes[0].name, m.oids);
        AddUnseenSpec(acc, all);
        CollectFromLive(m, name, rx, classes[1..], if d.value then AddUnseen(acc, all) else acc);
      }
    }
  }

  /** The attribute's value on `o` passes the check: present, not null, and matching in text form. */
  predicate Keeps(m: Model, attrName: string, test: TextTest, o: Oid) {
    o in m.objects
    && attrName in m.objects[o].features
    && !IsNull(m, m.objects[o].features[attrName])
    && test(ToText(m, m.objects[o].features[attrName])) == Ok(true)
  }

  /** The candidates that pass the check, in candidate order. */
  function Kept(m: Model, attrName: string, test: TextTest, cands: seq<Oid>): (r: seq<Oid>)
    ensures |r| <= |cands|
  {
    if cands == [] then []
    else (if Keeps(m, attrName, test, cands[0]) then [cands[0]] else []) + Kept(m, attrName, test, cands[1..])
  }

  /** The value filter from candidate list `cands` on, with `acc` kept so far. */
  function KeepFrom(m: Model, attrName: string, test: TextTest, cands: seq<Oid>, acc: seq<Oid>): Outcome<seq<Oid>>
    requires forall x :: x in cands ==> x in m.objects
    decreases cands
  {
    if cands == [] then Ok(acc)
    else
      var v :- EGet(m, cands[0], attrName);
      if IsNull(m, v) then KeepFrom(m, attrName, test, cands[1..], acc)
      else
        var ok :- test(ToText(m, v));
        KeepFrom(m, attrName, test, cands[1..], if ok then acc + [cands[0]] else acc)
  }

  /** A filter that completes takes one candidate at a time, keeping it iff it passes the check. */
  lemma KeepFromStep(m: Model, attrName: string, test: TextTest, cands: seq<Oid>, acc: seq<Oid>)
    requires cands != [] && forall x :: x in cands ==> x in m.objects
    requires KeepFrom(m, attrName, test, cands, acc).Ok?
    ensures KeepFrom(m, attrName, test, cands, acc)
      == KeepFrom(m, attrName, test, cands[1..], acc + (if Keeps(m, attrName, test, cands[0]) then [cands[0]] else []))
  {
    var o := cands[0];
    var v := EGet(m, o, attrName).value;
    if IsNull(m, v) {
      assert acc + [] == acc;
    } else {
      var ok := test(ToText(m, v));
      assert ok.Ok? && (ok.value <==> Keeps(m, attrName, test, o));
      if !ok.value {
        assert acc + [] == acc;
      }
    }
  }

  lemma {:induction false} KeepFromSpec(m: Model, attrName: string, test: TextTest, cands: seq<Oid>, acc: seq<Oid>)
    requires forall x :: x in cands ==> x in m.objects
    ensures var r := KeepFrom(m, attrName, test, cands, acc);
      r.Ok? ==> (|acc| <= |r.value| && r.value[..|acc|] == acc
        && forall i :: |acc| <= i < |r.value| ==> r.value[i] in cands && Keeps(m, attrName, test, r.value[i]))
    ensures var r := KeepFrom(m, attrName, test, cands, acc);
      r.Ok? ==> forall x :: x in cands && Keeps(m, attrName, test, x) ==> x in r.value
    decreases cands
  {
    var r := KeepFrom(m, attrName, test, cands, acc);
    if cands != [] && r.Ok? {
      var o := cands[0];
      var next := acc + (if Keeps(m, attrName, test, o) then [o] else []);
      KeepFromStep(m, attrName, test, cands, acc);
      KeepFromSpec(m, attrName, test, cands[1..], next);
      assert r.value[..|next|] == next;
      assert r.value[..|acc|] == r.value[..|next|][..|acc|];
      forall i | |acc| <= i < |r.value|
        ensures r.value[i] in cands && Keeps(m, attrName, test, r.value[i])
      {
        if i < |next| {
          assert r.value[i] == next[i] == o;
        } else {
          assert r.value[i] in cands[1..];
        }
      }
      forall x | x in cands && Keeps(m, attrName, test, x)
        ensures x in r.value
      {
        if x == o {
          assert r.value[|acc|] == next[|acc|];
        } else {
          assert x in cands[1..];
        }
      }
    }
  }

  /** The value filter appends, in candidate order, exactly the candidates that pass the check. */
  lemma {:induction false} KeepFromOrder(m: Model, attrName: string, test: TextTest, cands: seq<Oid>, acc: seq<Oid>)
    requires forall x :: x in cands ==> x in m.objects
    ensures var r := KeepFrom(m, attrName, test, cands, acc);
      r.Ok? ==> r.value == acc + Kept(m, attrName, test, cands)
    decreases cands
  {
    var r := KeepFrom(m, attrName, test, cands, acc);
    if cands != [] && r.Ok? {
      var o := cands[0];
      var first := if Keeps(m, attrName, test, o) then [o] else [];
      var later := Kept(m, attrName, test, cands[1..]);
      assert Kept(m, attrName, test, cands) == first + later;
      KeepFromStep(m, attrName, test, cands, acc);
      var rest := KeepFrom(m, attrName, test, cands[1..], acc + first);
      assert r == rest;
      KeepFromOrder(m, attrName, test, cands[1..], acc + first);
      assert rest.value == acc + first + later;
      assert acc + first + later == acc + (first + later);
    }
  }

  /** The outcome of `filter`, as a function of the facet and the model. */
  function FilterSpec(f: Attribute, m: Model, rx: RestrictionValues.Regex): Outcome<seq<Oid>> {
    var cands :- Candidates(f, m, rx);
    if f.value.None? then Ok(cands)
    else
      var attrName :- ExtractName(f.name);
      CollectFromLive(m, f.name, rx, m.classes, []);
      KeepFrom(m, attrName, ValueTest(f.value.value, rx), cands, [])
  }

  /** Without a value, `filter` returns the candidates unchanged. */
  lemma FilterWithoutValue(f: Attribute, m: Model, rx: RestrictionValues.Regex)
    requires f.value.None?
    ensures FilterSpec(f, m, rx) == Candidates(f, m, rx)
  {}

  /**
   * With a value, `filter` keeps exactly the candidates whose attribute is set and matches,
   * in candidate order.
   */
  lemma FilterWithValue(f: Attribute, m: Model, rx: RestrictionValues.Regex)
    requires f.value.Some? && f.name.Some?
    requires Candidates(f, m, rx).Ok?
    ensures var cands := Candidates(f, m, rx).value; var r := FilterSpec(f, m, rx);
      r.Ok? ==> forall x ::
        x in r.value <==> x in cands && Keeps(m, Extract(f.name.value), ValueTest(f.value.value, rx), x)
    ensures var cands := Candidates(f, m, rx).value; var r := FilterSpec(f, m, rx);
      r.Ok? ==> r.value == Kept(m, Extract(f.name.value), ValueTest(f.value.value, rx), cands)
  {
    CollectFromLive(m, f.name, rx, m.classes, []);
    var cands := Candidates(f, m, rx).value;
    KeepFromSpec(m, Extract(f.name.value), ValueTest(f.value.value, rx), cands, []);
    KeepFromOrder(m, Extract(f.name.value), ValueTest(f.value.value, rx), cands, []);
    var r := FilterSpec(f, m, rx);
    if r.Ok? {
      forall x | x in r.value
        ensures x in cands
      {
        var i :| 0 <= i < |r.value| && r.value[i] == x;
      }
    }
  }

  /** `filter`: candidate discovery over the schema's classes, then the optional value filter. */
  method Filter(f: Attribute, m: Model, rx: RestrictionValues.Regex) returns (r: Outcome<seq<Oid>>)
    ensures r == FilterSpec(f, m, rx)
  {
    var candidates: seq<Oid> := [];
    var seen: set<Oid> := {};
    var k := 0;
    while k < |m.classes|
      invariant 0 <= k <= |m.classes|
      invariant CollectFrom(m, f.name, rx, m.classes[k..], candidates) == Candidates(f, m, rx)
      invariant forall x :: x in seen <==> x in candidates
    {
      var ec := m.classes[k];
      assert m.classes[k..][1..] == m.classes[k + 1..];
      var declares := DeclaresMatch(f.name, ec.attributes, rx);
      if declares.Throws? {
        return Throws(declares.exn);
      }
      if declares.value {
        var all := AllWithSubTypes(m, ec.name, m.oids);
        ghost var before := candidates;
        var j := 0;
        while j < |all|
          invariant 0 <= j <= |all|
          invariant AddUnseen(candidates, all[j..]) == AddUnseen(before, all)
          invariant forall x :: x in seen <==> x in candidates
        {
          assert all[j..][1..] == all[j + 1..];
          var e := all[j];
          if e !in seen {
            seen := seen + {e};
            candidates := candidates + [e];
          }
          j := j + 1;
        }
      }
      k := k + 1;
    }
    if f.value.None? {
      return Ok(candidates);
    }
    if f.name.None? {
      return Throws(NullPointer);
    }
    var attrName := Extract(f.name.value);
    CollectFromLive(m, f.name, rx, m.classes, []);
    var result: seq<Oid> := [];
    var i := 0;
    while i < |candidates|
      invariant 0 <= i <= |candidates|
      invariant KeepFrom(m, attrName, ValueTest(f.value.value, rx), candidates[i..], result) == FilterSpec(f, m, rx)
    {
      var candidate := candidates[i];
      assert candidates[i..][1..] == candidates[i + 1..];
      var attrValue := EGet(m, candidate, attrName);
      if attrValue.Throws? {
        return Throws(attrValue.exn);
      }
      if !IsNull(m, attrValue.value) {
        var ok := Values.Matches(f.value.value, Some(ToText(m, attrValue.value)), rx);
        if !ok.Ok? {
          return ok.PropagateFailure();
        }
        if ok.value {
          result := result + [candidate];
        }
      }
      i := i + 1;
    }
    return Ok(result);
  }

  /** `matches` is a stub that returns null. */
  function MatchesStub(f: Attribute, m: Model, o: Oid): (r: Option<Results.FacetResult>)
    ensures r.None?
  {
    None
  }

  function Type(f: Attribute): (t: Facets.FacetType)
    ensures t == Facets.ATTRIBUTE
  {
    Facets.ATTRIBUTE
  }
}
