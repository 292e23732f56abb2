/**
 * The classification facet: an element's classification references (the leaves attached to it
 * and the references they inherit from), their codes, and the classification systems they
 * belong to.
 */
module ClassificationFacet {
  import opened Wrappers
  import opened IfcModel
  import opened Values
  import opened Results
  import Facets
  import RestrictionValues

  datatype Templates = Templates(applicability: string, requirement: string, prohibited: string)

  datatype Classification = Classification(
    system: Option<Value>,
    value: Option<Value>,
    uri: Option<string>,
    cardinality: Facets.Cardinality,
    instructions: Option<string>,
    templates: Option<Templates>)

  /** The constructor's templates; with neither system nor value they stay null. */
  function MakeTemplates(system: Option<Value>, value: Option<Value>): (r: Option<Templates>)
    ensures r.None? <==> system.None? && value.None?
    ensures system.Some? && value.None? ==> r.value.requirement == "Shall be classified using " + Extract(system.value)
    ensures system.None? && value.Some? ==> r.value.requirement == "Shall be classified as " + Extract(value.value)
    ensures system.Some? && value.Some? ==>
      r.value.requirement == "Shall have a " + Extract(system.value) + " reference of " + Extract(value.value)
  {
    if system.Some? && value.None? then
      var s := Extract(system.value);
      Some(Templates("Data classified using " + s, "Shall be classified using " + s, "Shall not be classified using " + s))
    else if system.None? && value.Some? then
      var v := Extract(value.value);
      Some(Templates("Data classified as " + v, "Shall be classified as " + v, "Shall not be classified as " + v))
    else if system.Some? && value.Some? then
      var s := Extract(system.value);
      var v := Extract(value.value);
      Some(Templates("Data having a " + s + " reference of " + v, "Shall have a " + s + " reference of " + v,
        "Shall not have a " + s + " reference of " + v))
    else None
  }

  function Make(system: Option<Value>, value: Option<Value>, uri: Option<string>, c: Facets.Cardinality, instructions: Option<string>): Classification {
    Classification(system, value, uri, c, instructions, MakeTemplates(system, value))
  }

  const RelAssociates := "IfcRelAssociatesClassification"
  const ClassificationReference := "IfcClassificationReference"
  const ClassificationClass := "IfcClassification"

  // ---------------------------------------------------------------- filter

  /** Adds the related objects of one relation, each once; a null or non-object element throws. */
  function RelatedFrom(m: Model, acc: seq<Oid>, items: seq<Val>): Outcome<seq<Oid>>
    decreases items
  {
    if items == [] then Ok(acc)
    else
      var o :- AsObject(m, items[0]);
      RelatedFrom(m, if o in acc then acc else acc + [o], items[1..])
  }

  /** The related objects of the relations `rels` on, added to `acc`. */
  function RelationsFrom(m: Model, rels: seq<Oid>, acc: seq<Oid>): Outcome<seq<Oid>>
    requires forall x :: x in rels ==> x in m.objects
    decreases rels
  {
    if rels == [] then Ok(acc)
    else
      var related :- EGet(m, rels[0], "RelatedObjects");
      if IsNull(m, related) then RelationsFrom(m, rels[1..], acc)
      else if !related.List? then Throws(ClassCast)
      else
        var next :- RelatedFrom(m, acc, related.items);
        RelationsFrom(m, rels[1..], next)
  }

  /** The outcome of `filter`. */
  function FilterSpec(m: Model): Outcome<seq<Oid>> {
    if !HasClass(m, RelAssociates) then Ok([])
    else RelationsFrom(m, AllOf(m, RelAssociates, m.oids), [])
  }

  /** `x` is named in the related-objects list of relation `rel`. */
  predicate RelatedTo(m: Model, rel: Oid, x: Oid)
    requires rel in m.objects
  {
    var v := FeatureValue(m, rel, "RelatedObjects");
    v.List? && Ref(x) in v.items
  }

  lemma {:induction false} RelatedFromSpec(m: Model, acc: seq<Oid>, items: seq<Val>)
    requires Distinct(acc)
    ensures var r := RelatedFrom(m, acc, items);
      r.Ok? ==> (Distinct(r.value) && forall x :: x in r.value <==> x in acc || Ref(x) in items)
    decreases items
  {
    if items != [] {
      var o := AsObject(m, items[0]);
      if o.Ok? {
        var next := if o.value in acc then acc else acc + [o.value];
        RelatedFromSpec(m, next, items[1..]);
        assert items == [items[0]] + items[1..];
      }
    }
  }

  lemma {:induction false} RelationsFromSpec(m: Model, rels: seq<Oid>, acc: seq<Oid>)
    requires forall x :: x in rels ==> x in m.objects
    requires Distinct(acc)
    ensures var r := RelationsFrom(m, rels, acc);
      r.Ok? ==> (Distinct(r.value)
        && forall x :: x in r.value <==> x in acc || exists i :: 0 <= i < |rels| && RelatedTo(m, rels[i], x))
    decreases rels
  {
    if rels != [] {
      var related := EGet(m, rels[0], "RelatedObjects");
      if related.Ok? {
        var r := RelationsFrom(m, rels, acc);
        if IsNull(m, related.value) {
          RelationsFromSpec(m, rels[1..], acc);
          if r.Ok? {
            forall x | x in r.value ensures x in acc || exists i :: 0 <= i < |rels| && RelatedTo(m, rels[i], x) {
              if !(x in acc) {
                var i :| 0 <= i < |rels[1..]| && RelatedTo(m, rels[1..][i], x);
                assert rels[1..][i] == rels[i + 1];
              }
            }
            forall x | exists i :: 0 <= i < |rels| && RelatedTo(m, rels[i], x) ensures x in r.value {
              var i :| 0 <= i < |rels| && RelatedTo(m, rels[i], x);
              assert i != 0;
              assert rels[i] == rels[1..][i - 1];
            }
          }
        } else if related.value.List? {
          var next := RelatedFrom(m, acc, related.value.items);
          RelatedFromSpec(m, acc, related.value.items);
          if next.Ok? {
            RelationsFromSpec(m, rels[1..], next.value);
            if r.Ok? {
              forall x | x in r.value ensures x in acc || exists i :: 0 <= i < |rels| && RelatedTo(m, rels[i], x) {
                if !(x in next.value) {
                  var i :| 0 <= i < |rels[1..]| && RelatedTo(m, rels[1..][i], x);
                  assert rels[1..][i] == rels[i + 1];
                } else if !(x in acc) {
                  assert RelatedTo(m, rels[0], x);
                }
              }
              forall x | exists i :: 0 <= i < |rels| && RelatedTo(m, rels[i], x) ensures x in r.value {
                var i :| 0 <= i < |rels| && RelatedTo(m, rels[i], x);
                if i > 0 {
                  assert rels[i] == rels[1..][i - 1];
                }
              }
            }
          }
        }
      }
    }
  }

  /**
   * `filter` lists each object related by some classification association, once, and nothing
   * else; a schema without the association class yields nothing.
   */
  lemma FilterSpecProperties(m: Model)
    ensures !HasClass(m, RelAssociates) ==> FilterSpec(m) == Ok([])
    ensures var r := FilterSpec(m); var rels := AllOf(m, RelAssociates, m.oids);
      r.Ok? && HasClass(m, RelAssociates) ==> (Distinct(r.value)
        && forall x :: x in r.value <==> exists i :: 0 <= i < |rels| && RelatedTo(m, rels[i], x))
  {
    if HasClass(m, RelAssociates) {
      RelationsFromSpec(m, AllOf(m, RelAssociates, m.oids), []);
    }
  }

  /** `filter`: the related objects of every classification association, in order, once each. */
  method Filter(m: Model) returns (r: Outcome<seq<Oid>>)
    ensures r == FilterSpec(m)
  {
    var results: seq<Oid> := [];
    var seen: set<Oid> := {};
    if !HasClass(m, RelAssociates) {
      return Ok(results);
    }
    var rels := AllOf(m, RelAssociates, m.oids);
    var k := 0;
    while k < |rels|
      invariant 0 <= k <= |rels|
      invariant RelationsFrom(m, rels[k..], results) == FilterSpec(m)
      invariant forall x :: x in seen <==> x in results
    {
      var rel := rels[k];
      assert rels[k..][1..] == rels[k + 1..];
      var related := EGet(m, rel, "RelatedObjects");
      if related.Throws? {
        return Throws(related.exn);
      }
      if !IsNull(m, related.value) {
        if !related.value.List? {
          return Throws(ClassCast);
        }
        var items := related.value.items;
        ghost var before := results;
        var j := 0;
        while j < |items|
          invariant 0 <= j <= |items|
          invariant RelatedFrom(m, results, items[j..]) == RelatedFrom(m, before, items)
          invariant forall x :: x in seen <==> x in results
        {
          assert items[j..][1..] == items[j + 1..];
          var obj := AsObject(m, items[j]);
          if obj.Throws? {
            return Throws(obj.exn);
          }
          if obj.value !in seen {
            seen := seen + {obj.value};
            results := results + [obj.value];
          }
          j := j + 1;
        }
      }
      k := k + 1;
    }
    return Ok(results);
  }

  // ---------------------------------------------------------------- leaf references

  /** The reference an association relation points at, when it is an IfcClassificationReference. */
  function LeafOf(m: Model, rel: Oid): (r: Option<Oid>)
    requires rel in m.objects
    ensures r.Some? ==> r.value in m.objects && ClassOf(m, r.value) == ClassificationReference
  {
    if ClassOf(m, rel) != RelAssociates then None
    else
      var rc := GetObject(m, rel, "RelatingClassification");
      if rc.Some? && ClassOf(m, rc.value) == ClassificationReference then rc else None
  }

  /** The scan over the element's association list from `items` on, with `acc` found so far. */
  function LeavesFrom(m: Model, items: seq<Val>, acc: seq<Oid>): Outcome<seq<Oid>>
    decreases items
  {
    if items == [] then Ok(acc)
    else
      var rel :- AsObject(m, items[0]);
      var leaf := LeafOf(m, rel);
      LeavesFrom(m, items[1..], if leaf.Some? && leaf.value !in acc then acc + [leaf.value] else acc)
  }

  /** The outcome of `getLeafClassificationReferences`. */
  function LeavesSpec(m: Model, e: Oid): Outcome<seq<Oid>>
    requires e in m.objects
  {
    var v := FeatureValue(m, e, "HasAssociations");
    if IsNull(m, v) then Ok([])
    else if !v.List? then Throws(ClassCast)
    else LeavesFrom(m, v.items, [])
  }

  lemma {:induction false} LeavesFromSpec(m: Model, items: seq<Val>, acc: seq<Oid>)
    requires Distinct(acc)
    requires forall x :: x in acc ==> x in m.objects && ClassOf(m, x) == ClassificationReference
    ensures var r := LeavesFrom(m, items, acc);
      r.Ok? ==> (Distinct(r.value)
        && (forall x :: x in r.value ==> x in m.objects && ClassOf(m, x) == ClassificationReference)
        && (forall x :: x in r.value <==> x in acc || exists i :: 0 <= i < |items| && Live(m, items[i]) && LeafOf(m, items[i].oid) == Some(x)))
    decreases items
  {
    if items != [] {
      var rel := AsObject(m, items[0]);
      if rel.Ok? {
        var leaf := LeafOf(m, rel.value);
        var next := if leaf.Some? && leaf.value !in acc then acc + [leaf.value] else acc;
        LeavesFromSpec(m, items[1..], next);
        var r := LeavesFrom(m, items, acc);
        if r.Ok? {
          forall x ensures x in r.value <==> x in acc || exists i :: 0 <= i < |items| && Live(m, items[i]) && LeafOf(m, items[i].oid) == Some(x) {
            if exists i :: 0 <= i < |items| && Live(m, items[i]) && LeafOf(m, items[i].oid) == Some(x) {
              var i :| 0 <= i < |items| && Live(m, items[i]) && LeafOf(m, items[i].oid) == Some(x);
              if i > 0 {
                assert items[i] == items[1..][i - 1];
              }
            }
            if exists i :: 0 <= i < |items[1..]| && Live(m, items[1..][i]) && LeafOf(m, items[1..][i].oid) == Some(x) {
              var i :| 0 <= i < |items[1..]| && Live(m, items[1..][i]) && LeafOf(m, items[1..][i].oid) == Some(x);
              assert items[1..][i] == items[i + 1];
            }
          }
        }
      }
    }
  }

  /**
   * The leaves are distinct IfcClassificationReference objects, exactly those some association
   * of the element points at; an element without associations has none.
   */
  lemma LeavesSpecProperties(m: Model, e: Oid)
    requires e in m.objects
    ensures IsNull(m, FeatureValue(m, e, "HasAssociations")) ==> LeavesSpec(m, e) == Ok([])
    ensures var r := LeavesSpec(m, e); var v := FeatureValue(m, e, "HasAssociations");
      r.Ok? && v.List? ==> (Distinct(r.value)
        && (forall x :: x in r.value ==> x in m.objects && ClassOf(m, x) == ClassificationReference)
        && (forall x :: x in r.value <==> exists i :: 0 <= i < |v.items| && Live(m, v.items[i]) && LeafOf(m, v.items[i].oid) == Some(x)))
  {
    var v := FeatureValue(m, e, "HasAssociations");
    if v.List? {
      LeavesFromSpec(m, v.items, []);
    }
  }

  /** `getLeafClassificationReferences`. */
  method Leaves(m: Model, e: Oid) returns (r: Outcome<seq<Oid>>)
    requires e in m.objects
    ensures r == LeavesSpec(m, e)
  {
    var results: seq<Oid> := [];
    var rels := FeatureValue(m, e, "HasAssociations");
    if IsNull(m, rels) {
      return Ok(results);
    }
    if !rels.List? {
      return Throws(ClassCast);
    }
    var items := rels.items;
    var j := 0;
    while j < |items|
      invariant 0 <= j <= |items|
      invariant LeavesFrom(m, items[j..], results) == LeavesSpec(m, e)
    {
      assert items[j..][1..] == items[j + 1..];
      var rel := AsObject(m, items[j]);
      if rel.Throws? {
        return Throws(rel.exn);
      }
      var leaf := LeafOf(m, rel.value);
      if leaf.Some? && leaf.value !in results {
        results := results + [leaf.value];
      }
      j := j + 1;
    }
    return Ok(results);
  }

  // ---------------------------------------------------------------- inherited references

  const Guard := 50

  /** The reference `current` inherits from, when that is itself an IfcClassificationReference. */
  function ParentReference(m: Model, current: Oid): (r: Option<Oid>)
    requires current in m.objects
    ensures r.Some? ==> r.value in m.objects && ClassOf(m, r.value) == ClassificationReference
  {
    var src := GetObject(m, current, "ReferencedSource");
    if src.Some? && ClassOf(m, src.value) == ClassificationReference then src else None
  }

  /** The upward walk from `current`, with `acc` found so far and `steps` guard steps left. */
  function ChainFrom(m: Model, current: Oid, acc: seq<Oid>, steps: nat): seq<Oid>
    requires current in m.objects
    decreases steps
  {
    if steps == 0 then acc
    else
      var src := ParentReference(m, current);
      if src.None? || src.value in acc then acc
      else ChainFrom(m, src.value, acc + [src.value], steps - 1)
  }

  /** The outcome of `getInheritedReferences`. */
  function InheritedSpec(m: Model, ref: Oid): seq<Oid>
    requires ref in m.objects
  {
    ChainFrom(m, ref, [], Guard)
  }

  /** Each link of the chain is the parent reference of the one before it. */
  predicate IsChain(m: Model, start: Oid, c: seq<Oid>)
    requires start in m.objects
  {
    (forall i :: 0 <= i < |c| ==> c[i] in m.objects && ClassOf(m, c[i]) == ClassificationReference)
    && (|c| > 0 ==> ParentReference(m, start) == Some(c[0]))
    && (forall i :: 0 < i < |c| ==> ParentReference(m, c[i - 1]) == Some(c[i]))
  }

  lemma {:induction false} ChainFromSpec(m: Model, start: Oid, current: Oid, acc: seq<Oid>, steps: nat)
    requires start in m.objects && current in m.objects
    requires IsChain(m, start, acc) && Distinct(acc)
    requires |acc| > 0 ==> current == acc[|acc| - 1]
    requires |acc| == 0 ==> current == start
    ensures var r := ChainFrom(m, current, acc, steps);
      IsChain(m, start, r) && Distinct(r) && |acc| <= |r| <= |acc| + steps && r[..|acc|] == acc
    decreases steps
  {
    if steps > 0 {
      var src := ParentReference(m, current);
      if src.Some? && src.value !in acc {
        var next := acc + [src.value];
        ChainFromSpec(m, start, src.value, next, steps - 1);
        var r := ChainFrom(m, current, acc, steps);
        assert r[..|acc|] == r[..|next|][..|acc|];
      }
    }
  }

  /**
   * The inherited references follow ReferencedSource upward through IfcClassificationReference
   * objects, never repeat, and number at most 50.
   */
  lemma InheritedSpecProperties(m: Model, ref: Oid)
    requires ref in m.objects
    ensures var r := InheritedSpec(m, ref); IsChain(m, ref, r) && Distinct(r) && |r| <= Guard
    ensures ParentReference(m, ref).None? ==> InheritedSpec(m, ref) == []
  {
    ChainFromSpec(m, ref, ref, [], Guard);
  }

  /** A reference that is its own source: the walk stops at once on the repeat. */
  lemma SelfSourcedChain(m: Model, ref: Oid)
    requires ref in m.objects && ClassOf(m, ref) == ClassificationReference
    requires FeatureValue(m, ref, "ReferencedSource") == Ref(ref)
    ensures InheritedSpec(m, ref) == [ref]
  {
    assert ParentReference(m, ref) == Some(ref);
    assert ChainFrom(m, ref, [ref], Guard - 1) == [ref];
  }

  /** `getInheritedReferences`. */
  method Inherited(m: Model, ref: Oid) returns (results: seq<Oid>)
    requires ref in m.objects
    ensures results == InheritedSpec(m, ref)
  {
    results := [];
    var current := ref;
    var guard := 0;
    while guard < Guard
      invariant 0 <= guard <= Guard
      invariant current in m.objects
      invariant ChainFrom(m, current, results, Guard - guard) == InheritedSpec(m, ref)
    {
      var src := GetObject(m, current, "ReferencedSource");
      if src.None? {
        break;
      }
      if ClassOf(m, src.value) != ClassificationReference {
        break;
      }
      if src.value in results {
        break;
      }
      results := results + [src.value];
      current := src.value;
      guard := guard + 1;
    }
  }

  // ---------------------------------------------------------------- classification of a reference

  /** The search loop from `cur`, with `steps` guard steps left; a null link reached throws. */
  function SearchFrom(m: Model, cur: Option<Oid>, steps: nat): (r: Outcome<Option<Oid>>)
    requires cur.Some? ==> cur.value in m.objects
    ensures r.Ok? && r.value.Some? ==> r.value.value in m.objects && ClassOf(m, r.value.value) == ClassificationClass
    ensures r.Ok? || r == Throws(NullPointer)
    decreases steps
  {
    if steps == 0 then Ok(None)
    else if cur.None? then Throws(NullPointer)
    else if ClassOf(m, cur.value) == ClassificationClass then Ok(cur)
    else SearchFrom(m, GetObject(m, cur.value, "ReferencedSource"), steps - 1)
  }

  /** The outcome of `getClassificationOfReference`. */
  function ClassificationOfSpec(m: Model, ref: Oid): (r: Outcome<Option<Oid>>)
    requires ref in m.objects
    ensures r.Ok? && r.value.Some? ==> r.value.value in m.objects && ClassOf(m, r.value.value) == ClassificationClass
  {
    var src := GetObject(m, ref, "ReferencedSource");
    if src.None? then Ok(None)
    else if ClassOf(m, src.value) == ClassificationClass then Ok(src)
    else SearchFrom(m, src, Guard)
  }

  /**
   * A reference whose source is a classification belongs to it; a reference without a source
   * belongs to none; and a source chain that reaches a null link before a classification throws.
   */
  lemma ClassificationOfCases(m: Model, ref: Oid)
    requires ref in m.objects
    ensures var src := GetObject(m, ref, "ReferencedSource");
      src.None? ==> ClassificationOfSpec(m, ref) == Ok(None)
    ensures var src := GetObject(m, ref, "ReferencedSource");
      src.Some? && ClassOf(m, src.value) == ClassificationClass ==> ClassificationOfSpec(m, ref) == Ok(src)
    ensures var src := GetObject(m, ref, "ReferencedSource");
      (src.Some? && ClassOf(m, src.value) != ClassificationClass && GetObject(m, src.value, "ReferencedSource").None?)
        ==> ClassificationOfSpec(m, ref) == Throws(NullPointer)
  {}

  /** `getClassificationOfReference`. */
  method ClassificationOf(m: Model, ref: Oid) returns (r: Outcome<Option<Oid>>)
    requires ref in m.objects
    ensures r == ClassificationOfSpec(m, ref)
  {
    var src := GetObject(m, ref, "ReferencedSource");
    if src.None? {
      return Ok(None);
    }
    if ClassOf(m, src.value) == ClassificationClass {
      return Ok(src);
    }
    var cur := src;
    var guard := 0;
    while guard < Guard
      invariant 0 <= guard <= Guard
      invariant cur.Some? ==> cur.value in m.objects
      invariant SearchFrom(m, cur, Guard - guard) == ClassificationOfSpec(m, ref)
    {
      if cur.None? {
        return Throws(NullPointer);
      }
      if ClassOf(m, cur.value) == ClassificationClass {
        return Ok(cur);
      }
      cur := GetObject(m, cur.value, "ReferencedSource");
      guard := guard + 1;
    }
    return Ok(None);
  }

  // ---------------------------------------------------------------- matches

  /** The references of an element: its leaves, then what each leaf inherits, once each. */
  function AddInherited(m: Model, acc: seq<Oid>, leaves: seq<Oid>): seq<Oid>
    requires forall x :: x in leaves ==> x in m.objects
    decreases leaves
  {
    if leaves == [] then acc
    else AddInherited(m, AddUnseen(acc, InheritedSpec(m, leaves[0])), leaves[1..])
  }

  lemma {:induction false} AddInheritedSpec(m: Model, acc: seq<Oid>, leaves: seq<Oid>)
    requires forall x :: x in leaves ==> x in m.objects
    requires forall x :: x in acc ==> x in m.objects
    requires Distinct(acc)
    ensures var r := AddInherited(m, acc, leaves);
      Distinct(r) && (forall x :: x in r ==> x in m.objects) && |acc| <= |r| && r[..|acc|] == acc
    decreases leaves
  {
    if leaves != [] {
      var c := InheritedSpec(m, leaves[0]);
      InheritedSpecProperties(m, leaves[0]);
      AddUnseenSpec(acc, c);
      var next := AddUnseen(acc, c);
      AddInheritedSpec(m, next, leaves[1..]);
      var r := AddInherited(m, acc, leaves);
      assert r[..|acc|] == r[..|next|][..|acc|];
    }
  }

  /** Adding the chains keeps what was there and adds exactly the members of each leaf's chain. */
  lemma {:induction false} AddInheritedMembers(m: Model, acc: seq<Oid>, leaves: seq<Oid>)
    requires forall x :: x in leaves ==> x in m.objects
    ensures forall x :: x in AddInherited(m, acc, leaves) <==>
      x in acc || exists i :: 0 <= i < |leaves| && x in InheritedSpec(m, leaves[i])
    decreases leaves
  {
    if leaves != [] {
      var c := InheritedSpec(m, leaves[0]);
      AddUnseenSpec(acc, c);
      var next := AddUnseen(acc, c);
      AddInheritedMembers(m, next, leaves[1..]);
      forall x ensures x in AddInherited(m, acc, leaves) <==> x in acc || exists i :: 0 <= i < |leaves| && x in InheritedSpec(m, leaves[i]) {
        if exists i :: 0 <= i < |leaves| && x in InheritedSpec(m, leaves[i]) {
          var i :| 0 <= i < |leaves| && x in InheritedSpec(m, leaves[i]);
          if i > 0 {
            assert leaves[i] == leaves[1..][i - 1];
          }
        }
        if exists i :: 0 <= i < |leaves[1..]| && x in InheritedSpec(m, leaves[1..][i]) {
          var i :| 0 <= i < |leaves[1..]| && x in InheritedSpec(m, leaves[1..][i]);
          assert leaves[1..][i] == leaves[i + 1];
        }
      }
    }
  }

  function RefsSpec(m: Model, e: Oid): (r: Outcome<seq<Oid>>)
    requires e in m.objects
    ensures r.Ok? ==> forall x :: x in r.value ==> x in m.objects
  {
    var leaves :- LeavesSpec(m, e);
    LeavesSpecProperties(m, e);
    AddInheritedSpec(m, leaves, leaves);
    Ok(AddInherited(m, leaves, leaves))
  }

  /**
   * The references of an element: its leaves first and in order, followed by what each leaf
   * inherits, with no object twice; they exist exactly when the leaves can be read.
   */
  lemma RefsContents(m: Model, e: Oid)
    requires e in m.objects
    ensures RefsSpec(m, e).Ok? <==> LeavesSpec(m, e).Ok?
    ensures var r := RefsSpec(m, e); r.Ok? ==>
      var leaves := LeavesSpec(m, e).value;
      && Distinct(r.value)
      && |leaves| <= |r.value| && r.value[..|leaves|] == leaves
      && forall x :: x in r.value <==>
        x in leaves || exists i :: 0 <= i < |leaves| && leaves[i] in m.objects && x in InheritedSpec(m, leaves[i])
  {
    var leaves := LeavesSpec(m, e);
    if leaves.Ok? {
      LeavesSpecProperties(m, e);
      AddInheritedSpec(m, leaves.value, leaves.value);
      AddInheritedMembers(m, leaves.value, leaves.value);
    }
  }

  /** The code a reference contributes: its Identification, else its ItemReference. */
  function Pick(m: Model, r: Oid): Option<string>
    requires r in m.objects
  {
    var id := GetString(m, r, "Identification");
    if id.Some? then id else GetString(m, r, "ItemReference")
  }

  /** The value scan from `refs` on: every contributed code, and whether any matched. */
  function ValueScan(m: Model, value: Value, rx: RestrictionValues.Regex, refs: seq<Oid>, actual: seq<string>, any: bool): (r: Outcome<(seq<string>, bool)>)
    requires forall x :: x in refs ==> x in m.objects
    decreases refs
  {
    if refs == [] then Ok((actual, any))
    else
      var pick := Pick(m, refs[0]);
      if pick.None? then ValueScan(m, value, rx, refs[1..], actual, any)
      else
        var ok :- Values.Matches(value, pick, rx);
        ValueScan(m, value, rx, refs[1..], actual + [pick.value], any || ok)
  }

  /** The codes the references contribute, in order. */
  function Codes(m: Model, refs: seq<Oid>): seq<string>
    requires forall x :: x in refs ==> x in m.objects
  {
    if refs == [] then []
    else (if Pick(m, refs[0]).Some? then [Pick(m, refs[0]).value] else []) + Codes(m, refs[1..])
  }

  /** Some reference's code matches the value. */
  function AnyMatches(m: Model, value: Value, rx: RestrictionValues.Regex, refs: seq<Oid>): bool
    requires forall x :: x in refs ==> x in m.objects
  {
    refs != [] && (Values.Matches(value, Pick(m, refs[0]), rx) == Ok(true) || AnyMatches(m, value, rx, refs[1..]))
  }

  lemma {:induction false} AnyMatchesSpec(m: Model, value: Value, rx: RestrictionValues.Regex, refs: seq<Oid>)
    requires forall x :: x in refs ==> x in m.objects
    ensures AnyMatches(m, value, rx, refs) <==> exists i :: 0 <= i < |refs| && Values.Matches(value, Pick(m, refs[i]), rx) == Ok(true)
  {
    if refs != [] {
      AnyMatchesSpec(m, value, rx, refs[1..]);
      if exists i :: 0 <= i < |refs| && Values.Matches(value, Pick(m, refs[i]), rx) == Ok(true) {
        var i :| 0 <= i < |refs| && Values.Matches(value, Pick(m, refs[i]), rx) == Ok(true);
        if i > 0 {
          assert refs[i] == refs[1..][i - 1];
        }
      }
      if AnyMatches(m, value, rx, refs[1..]) {
        var i :| 0 <= i < |refs[1..]| && Values.Matches(value, Pick(m, refs[1..][i]), rx) == Ok(true);
        assert refs[1..][i] == refs[i + 1];
      }
    }
  }

  /** The scan collects exactly the codes, and finds a match iff one of them matches. */
  lemma {:induction false} ValueScanSpec(m: Model, value: Value, rx: RestrictionValues.Regex, refs: seq<Oid>, actual: seq<string>, any: bool)
    requires forall x :: x in refs ==> x in m.objects
    ensures var r := ValueScan(m, value, rx, refs, actual, any);
      r.Ok? ==> r.value == (actual + Codes(m, refs), any || AnyMatches(m, value, rx, refs))
    decreases refs
  {
    if refs != [] {
      var pick := Pick(m, refs[0]);
      if pick.None? {
        ValueScanSpec(m, value, rx, refs[1..], actual, any);
        assert Values.Matches(value, pick, rx) == Ok(false);
        assert Codes(m, refs) == Codes(m, refs[1..]) by {
          assert [] + Codes(m, refs[1..]) == Codes(m, refs[1..]);
        }
      } else {
        var ok := Values.Matches(value, pick, rx);
        if ok.Ok? {
          ValueScanSpec(m, value, rx, refs[1..], actual + [pick.value], any || ok.value);
          assert Codes(m, refs) == [pick.value] + Codes(m, refs[1..]);
          assert AnyMatches(m, value, rx, refs) == (ok.value || AnyMatches(m, value, rx, refs[1..]));
          assert actual + [pick.value] + Codes(m, refs[1..]) == actual + Codes(m, refs);
        }
      }
    } else {
      assert actual + Codes(m, refs) == actual;
    }
  }

  /** The system scan from `refs` on: every classification name found, and whether any matched. */
  function SystemScan(m: Model, system: Option<Value>, rx: RestrictionValues.Regex, refs: seq<Oid>, actual: seq<string>, any: bool): Outcome<(seq<string>, bool)>
    requires forall x :: x in refs ==> x in m.objects
    decreases refs
  {
    if refs == [] then Ok((actual, any))
    else
      var sys :- ClassificationOfSpec(m, refs[0]);
      if sys.None? then SystemScan(m, system, rx, refs[1..], actual, any)
      else
        var name := GetString(m, sys.value, "Name");
        var ok :- if system.None? then Ok(false) else Values.Matches(system.value, name, rx);
        SystemScan(m, system, rx, refs[1..], if name.Some? then actual + [name.value] else actual, any || ok)
  }

  /** Without a system the system scan never finds a match. */
  lemma {:induction false} SystemScanWithoutSystem(m: Model, rx: RestrictionValues.Regex, refs: seq<Oid>, actual: seq<string>)
    requires forall x :: x in refs ==> x in m.objects
    ensures var r := SystemScan(m, None, rx, refs, actual, false); r.Ok? ==> !r.value.1
    decreases refs
  {
    if refs != [] {
      var sys := ClassificationOfSpec(m, refs[0]);
      if sys.Ok? {
        var name := if sys.value.Some? then GetString(m, sys.value.value, "Name") else None;
        SystemScanWithoutSystem(m, rx, refs[1..], if sys.value.Some? && name.Some? then actual + [name.value] else actual);
      }
    }
  }

  /** The classification a reference belongs to, when it has one and its lookup succeeds. */
  function SystemOf(m: Model, ref: Oid): (r: Option<Oid>)
    requires ref in m.objects
    ensures r.Some? ==> r.value in m.objects && ClassificationOfSpec(m, ref) == Ok(r)
  {
    var sys := ClassificationOfSpec(m, ref);
    if sys.Ok? then sys.value else None
  }

  /** The names of the classifications the references belong to, in order. */
  function SystemNames(m: Model, refs: seq<Oid>): seq<string>
    requires forall x :: x in refs ==> x in m.objects
  {
    if refs == [] then []
    else
      var sys := SystemOf(m, refs[0]);
      var name := if sys.Some? then GetString(m, sys.value, "Name") else None;
      (if name.Some? then [name.value] else []) + SystemNames(m, refs[1..])
  }

  /** A system is given and the name of the classification `ref` belongs to matches it. */
  predicate SystemMatchesAt(m: Model, system: Option<Value>, rx: RestrictionValues.Regex, ref: Oid)
    requires ref in m.objects
  {
    var sys := SystemOf(m, ref);
    system.Some? && sys.Some? && Values.Matches(system.value, GetString(m, sys.value, "Name"), rx) == Ok(true)
  }

  /** Some reference belongs to a classification whose name matches the system. */
  function AnySystemMatches(m: Model, system: Option<Value>, rx: RestrictionValues.Regex, refs: seq<Oid>): bool
    requires forall x :: x in refs ==> x in m.objects
  {
    refs != [] && (SystemMatchesAt(m, system, rx, refs[0]) || AnySystemMatches(m, system, rx, refs[1..]))
  }

  lemma {:induction false} AnySystemMatchesSpec(m: Model, system: Option<Value>, rx: RestrictionValues.Regex, refs: seq<Oid>)
    requires forall x :: x in refs ==> x in m.objects
    ensures AnySystemMatches(m, system, rx, refs) <==> exists i :: 0 <= i < |refs| && SystemMatchesAt(m, system, rx, refs[i])
  {
    if refs != [] {
      AnySystemMatchesSpec(m, system, rx, refs[1..]);
      if exists i :: 0 <= i < |refs| && SystemMatchesAt(m, system, rx, refs[i]) {
        var i :| 0 <= i < |refs| && SystemMatchesAt(m, system, rx, refs[i]);
        if i > 0 {
          assert refs[i] == refs[1..][i - 1];
        }
      }
      if AnySystemMatches(m, system, rx, refs[1..]) {
        var i :| 0 <= i < |refs[1..]| && SystemMatchesAt(m, system, rx, refs[1..][i]);
        assert refs[1..][i] == refs[i + 1];
      }
    }
  }

  /**
   * A scan that completes collected the name of every classification the references belong to,
   * and found a match iff a system is given and one of those names matches it.
   */
  lemma {:induction false} SystemScanSpec(m: Model, system: Option<Value>, rx: RestrictionValues.Regex, refs: seq<Oid>, actual: seq<string>, any: bool)
    requires forall x :: x in refs ==> x in m.objects
    ensures var r := SystemScan(m, system, rx, refs, actual, any);
      r.Ok? ==> r.value == (actual + SystemNames(m, refs), any || AnySystemMatches(m, system, rx, refs))
    decreases refs
  {
    if refs != [] {
      var sys := ClassificationOfSpec(m, refs[0]);
      if sys.Ok? {
        if sys.value.None? {
          SystemScanSpec(m, system, rx, refs[1..], actual, any);
          assert SystemNames(m, refs) == SystemNames(m, refs[1..]) by {
            assert [] + SystemNames(m, refs[1..]) == SystemNames(m, refs[1..]);
          }
        } else {
          var name := GetString(m, sys.value.value, "Name");
          var ok := if system.None? then Ok(false) else Values.Matches(system.value, name, rx);
          if ok.Ok? {
            var next := if name.Some? then actual + [name.value] else actual;
            SystemScanSpec(m, system, rx, refs[1..], next, any || ok.value);
            assert SystemMatchesAt(m, system, rx, refs[0]) == ok.value;
            if name.Some? {
              assert SystemNames(m, refs) == [name.value] + SystemNames(m, refs[1..]);
              assert next + SystemNames(m, refs[1..]) == actual + SystemNames(m, refs);
            } else {
              assert SystemNames(m, refs) == [] + SystemNames(m, refs[1..]);
            }
          }
        }
      }
    } else {
      assert actual + SystemNames(m, refs) == actual;
    }
  }

  /** The outcome of `matches` on element `e`. */
  function MatchesSpec(f: Classification, m: Model, e: Oid, rx: RestrictionValues.Regex): Outcome<FacetResult>
    requires e in m.objects
  {
    var refs :- RefsSpec(m, e);
    if refs == [] && f.cardinality == Facets.OPTIONAL then Ok(FacetResult(true, None))
    else
      var pass0 := refs != [];
      var reason0 := if refs == [] then Tagged("NOVALUE") else map[];
      var checked :-
        if pass0 && f.value.Some? then
          var scan :- ValueScan(m, f.value.value, rx, refs, [], false);
          Ok((scan.1, if scan.1 then reason0 else TaggedActual("VALUE", DItems(TextItems(scan.0)))))
        else Ok((pass0, reason0));
      var (pass1, reason1) := checked;
      var final :-
        if pass1 then
          var scan :- SystemScan(m, f.system, rx, refs, [], false);
          Ok((scan.1, if scan.1 then reason1 else TaggedActual("SYSTEM", DItems(TextItems(scan.0)))))
        else Ok((pass1, reason1));
      if f.cardinality == Facets.PROHIBITED then Ok(FacetResult(false, Some(Tagged("PROHIBITED"))))
      else Ok(FacetResult(final.0, Some(final.1)))
  }

  /** With no references: OPTIONAL passes with a null reason, REQUIRED fails with NOVALUE. */
  lemma NoReferences(f: Classification, m: Model, e: Oid, rx: RestrictionValues.Regex)
    requires e in m.objects && RefsSpec(m, e) == Ok([])
    ensures f.cardinality == Facets.OPTIONAL ==> MatchesSpec(f, m, e, rx) == Ok(FacetResult(true, None))
    ensures f.cardinality == Facets.REQUIRED ==> MatchesSpec(f, m, e, rx) == Ok(FacetResult(false, Some(Tagged("NOVALUE"))))
  {}

  /** A prohibited classification never passes, whatever the references hold. */
  lemma ProhibitedNeverPasses(f: Classification, m: Model, e: Oid, rx: RestrictionValues.Regex)
    requires e in m.objects && f.cardinality == Facets.PROHIBITED
    ensures var r := MatchesSpec(f, m, e, rx); r.Ok? ==> r.value == FacetResult(false, Some(Tagged("PROHIBITED")))
  {}

  /**
   * The system check runs on every result still passing, and without a system it never finds
   * one: a facet with no system passes only when there are no references and it is OPTIONAL.
   */
  lemma NoSystemPassesOnlyWhenOptionalAndEmpty(f: Classification, m: Model, e: Oid, rx: RestrictionValues.Regex)
    requires e in m.objects && f.system.None?
    ensures var r := MatchesSpec(f, m, e, rx);
      r.Ok? && r.value.isPass ==> RefsSpec(m, e) == Ok([]) && f.cardinality == Facets.OPTIONAL
  {
    var refs := RefsSpec(m, e);
    if refs.Ok? {
      SystemScanWithoutSystem(m, rx, refs.value, []);
    }
  }

  /**
   * The value check: with references and a value, a non-prohibited result that failed the value
   * check carries reason VALUE listing every contributed code; one that passes had a matching code.
   */
  lemma ValueCheck(f: Classification, m: Model, e: Oid, rx: RestrictionValues.Regex)
    requires e in m.objects && f.value.Some? && f.cardinality != Facets.PROHIBITED
    requires RefsSpec(m, e).Ok? && RefsSpec(m, e).value != []
    ensures var refs := RefsSpec(m, e).value; var r := MatchesSpec(f, m, e, rx);
      r.Ok? ==>
        ((forall i :: 0 <= i < |refs| ==> Values.Matches(f.value.value, Pick(m, refs[i]), rx) != Ok(true))
          ==> r.value == FacetResult(false, Some(TaggedActual("VALUE", DItems(TextItems(Codes(m, refs)))))))
        && (r.value.isPass ==> exists i :: 0 <= i < |refs| && Values.Matches(f.value.value, Pick(m, refs[i]), rx) == Ok(true))
  {
    var refs := RefsSpec(m, e).value;
    ValueScanSpec(m, f.value.value, rx, refs, [], false);
    AnyMatchesSpec(m, f.value.value, rx, refs);
    assert [] + Codes(m, refs) == Codes(m, refs);
  }

  /**
   * The system check: with references, a non-prohibited result passes only when some reference
   * belongs to a classification whose name matches the system. Without a value to check first,
   * it passes exactly then, and otherwise fails with reason SYSTEM listing every classification
   * name found.
   */
  lemma SystemCheck(f: Classification, m: Model, e: Oid, rx: RestrictionValues.Regex)
    requires e in m.objects && f.cardinality != Facets.PROHIBITED
    requires RefsSpec(m, e).Ok? && RefsSpec(m, e).value != []
    ensures var refs := RefsSpec(m, e).value; var r := MatchesSpec(f, m, e, rx);
      r.Ok? && r.value.isPass ==> exists i :: 0 <= i < |refs| && SystemMatchesAt(m, f.system, rx, refs[i])
    ensures var refs := RefsSpec(m, e).value; var r := MatchesSpec(f, m, e, rx);
      r.Ok? && f.value.None? ==>
        (r.value.isPass <==> exists i :: 0 <= i < |refs| && SystemMatchesAt(m, f.system, rx, refs[i]))
        && (!r.value.isPass ==> r.value == FacetResult(false, Some(TaggedActual("SYSTEM", DItems(TextItems(SystemNames(m, refs)))))))
  {
    var refs := RefsSpec(m, e).value;
    SystemScanSpec(m, f.system, rx, refs, [], false);
    AnySystemMatchesSpec(m, f.system, rx, refs);
    assert [] + SystemNames(m, refs) == SystemNames(m, refs);
  }

  /** The reference set of `matches`: the leaves, then each leaf's inherited chain. */
  method References(m: Model, e: Oid) returns (r: Outcome<seq<Oid>>)
    requires e in m.objects
    ensures r == RefsSpec(m, e)
  {
    var leafRefs := Leaves(m, e);
    if !leafRefs.Ok? {
      return leafRefs.PropagateFailure();
    }
    LeavesSpecProperties(m, e);
    var leaves := leafRefs.value;
    var refs := leaves;
    var i := 0;
    while i < |leaves|
      invariant 0 <= i <= |leaves|
      invariant forall x :: x in refs ==> x in m.objects
      invariant Distinct(refs)
      invariant AddInherited(m, refs, leaves[i..]) == AddInherited(m, leaves, leaves)
    {
      assert leaves[i..][1..] == leaves[i + 1..];
      var inherited := Inherited(m, leaves[i]);
      InheritedSpecProperties(m, leaves[i]);
      AddUnseenSpec(refs, inherited);
      refs := AddUnseen(refs, inherited);
      i := i + 1;
    }
    return Ok(refs);
  }

  /** The value check's loop: every contributed code, and whether any matched. */
  method ScanValues(m: Model, value: Value, rx: RestrictionValues.Regex, refs: seq<Oid>) returns (r: Outcome<(seq<string>, bool)>)
    requires forall x :: x in refs ==> x in m.objects
    ensures r == ValueScan(m, value, rx, refs, [], false)
  {
    var actualValues: seq<string> := [];
    var anyMatch := false;
    var k := 0;
    while k < |refs|
      invariant 0 <= k <= |refs|
      invariant ValueScan(m, value, rx, refs[k..], actualValues, anyMatch) == ValueScan(m, value, rx, refs, [], false)
    {
      assert refs[k..][1..] == refs[k + 1..];
      var pick := Pick(m, refs[k]);
      if pick.Some? {
        actualValues := actualValues + [pick.value];
        var ok := Values.Matches(value, pick, rx);
        if !ok.Ok? {
          return ok.PropagateFailure();
        }
        if ok.value {
          anyMatch := true;
        }
      }
      k := k + 1;
    }
    return Ok((actualValues, anyMatch));
  }

  /** The system check's loop: every classification name found, and whether any matched. */
  method ScanSystems(m: Model, system: Option<Value>, rx: RestrictionValues.Regex, refs: seq<Oid>) returns (r: Outcome<(seq<string>, bool)>)
    requires forall x :: x in refs ==> x in m.objects
    ensures r == SystemScan(m, system, rx, refs, [], false)
  {
    var actualSystems: seq<string> := [];
    var sysMatch := false;
    var k := 0;
    while k < |refs|
      invariant 0 <= k <= |refs|
      invariant SystemScan(m, system, rx, refs[k..], actualSystems, sysMatch) == SystemScan(m, system, rx, refs, [], false)
    {
      assert refs[k..][1..] == refs[k + 1..];
      var sys := ClassificationOf(m, refs[k]);
      if !sys.Ok? {
        return sys.PropagateFailure();
      }
      if sys.value.Some? {
        var sysName := GetString(m, sys.value.value, "Name");
        if sysName.Some? {
          actualSystems := actualSystems + [sysName.value];
        }
        if system.Some? {
          var ok := Values.Matches(system.value, sysName, rx);
          if !ok.Ok? {
            return ok.PropagateFailure();
          }
          if ok.value {
            sysMatch := true;
          }
        }
      }
      k := k + 1;
    }
    return Ok((actualSystems, sysMatch));
  }

  /** `matches`: the references, the value check, the system check, then the cardinality. */
  method Matches(f: Classification, m: Model, e: Oid, rx: RestrictionValues.Regex) returns (r: Outcome<FacetResult>)
    requires e in m.objects
    ensures r == MatchesSpec(f, m, e, rx)
  {
    var found := References(m, e);
    if !found.Ok? {
      return found.PropagateFailure();
    }
    var refs := found.value;
    var isPass := refs != [];
    var reason := if refs == [] then Tagged("NOVALUE") else map[];
    if !isPass && f.cardinality == Facets.OPTIONAL {
      return Ok(FacetResult(true, None));
    }
    if isPass && f.value.Some? {
      var scan := ScanValues(m, f.value.value, rx, refs);
      if !scan.Ok? {
        return scan.PropagateFailure();
      }
      isPass := scan.value.1;
      if !isPass {
        reason := TaggedActual("VALUE", DItems(TextItems(scan.value.0)));
      }
    }
    if isPass {
      var scan := ScanSystems(m, f.system, rx, refs);
      if !scan.Ok? {
        return scan.PropagateFailure();
      }
      isPass := scan.value.1;
      if !isPass {
        reason := TaggedActual("SYSTEM", DItems(TextItems(scan.value.0)));
      }
    }
    if f.cardinality == Facets.PROHIBITED {
      return Ok(FacetResult(false, Some(Tagged("PROHIBITED"))));
    }
    return Ok(FacetResult(isPass, Some(reason)));
  }
}
