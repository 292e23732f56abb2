/**
 * Insertion-ordered maps from text keys (`LinkedHashMap<String, V>`): a sequence of entries with
 * distinct keys. `put` on a present key replaces its value in place; on a new key it appends.
 */
module OrderedMaps {
  import opened Wrappers

  type Entries<V> = seq<(string, V)>

  /** No key occurs twice. */
  predicate UniqueKeys<V>(e: Entries<V>) {
    e == [] || (e[0].0 !in Keys(e[1..]) && UniqueKeys(e[1..]))
  }

  /** The keys in iteration order. */
  function Keys<V>(e: Entries<V>): (ks: seq<string>)
    ensures |ks| == |e|
  {
    if e == [] then [] else [e[0].0] + Keys(e[1..])
  }

  /** `get`: the value of the first entry with key `k`, else null. */
  function Lookup<V>(e: Entries<V>, k: string): (r: Option<V>)
    ensures r.Some? <==> k in Keys(e)
  {
    if e == [] then None else if e[0].0 == k then Some(e[0].1) else Lookup(e[1..], k)
  }

  /** `put`. */
  function Put<V>(e: Entries<V>, k: string, v: V): Entries<V> {
    if e == [] then [(k, v)]
    else if e[0].0 == k then [(k, v)] + e[1..]
    else [e[0]] + Put(e[1..], k, v)
  }

  /** `putIfAbsent`. */
  function PutIfAbsent<V>(e: Entries<V>, k: string, v: V): (r: Entries<V>)
    ensures Lookup(e, k).Some? ==> r == e
  {
    if Lookup(e, k).Some? then e else Put(e, k, v)
  }

  /** After `put`, the key holds the new value and every other key its old one. */
  lemma {:induction false} PutLookup<V>(e: Entries<V>, k: string, v: V)
    ensures Lookup(Put(e, k, v), k) == Some(v)
    ensures forall j :: j != k ==> Lookup(Put(e, k, v), j) == Lookup(e, j)
  {
    if e != [] && e[0].0 != k {
      PutLookup(e[1..], k, v);
      assert Put(e, k, v)[1..] == Put(e[1..], k, v);
    } else if e != [] {
      assert Put(e, k, v)[1..] == e[1..];
    }
  }

  /** A present key keeps its position under `put`, and a new key comes last. */
  lemma {:induction false} PutKeys<V>(e: Entries<V>, k: string, v: V)
    ensures Keys(Put(e, k, v)) == if k in Keys(e) then Keys(e) else Keys(e) + [k]
  {
    if e != [] && e[0].0 != k {
      PutKeys(e[1..], k, v);
      assert Put(e, k, v)[1..] == Put(e[1..], k, v);
      assert Keys(e) == [e[0].0] + Keys(e[1..]);
      assert Keys(Put(e, k, v)) == [e[0].0] + Keys(Put(e[1..], k, v));
      if k in Keys(e[1..]) {
      } else {
        assert [e[0].0] + (Keys(e[1..]) + [k]) == Keys(e) + [k];
      }
    } else if e != [] {
      assert Put(e, k, v)[1..] == e[1..];
    }
  }

  /** `put` never makes a key occur twice. */
  lemma {:induction false} PutUnique<V>(e: Entries<V>, k: string, v: V)
    requires UniqueKeys(e)
    ensures UniqueKeys(Put(e, k, v))
  {
    if e != [] && e[0].0 != k {
      PutUnique(e[1..], k, v);
      PutKeys(e[1..], k, v);
      assert Put(e, k, v)[1..] == Put(e[1..], k, v);
    } else if e != [] {
      assert Put(e, k, v)[1..] == e[1..];
    }
  }

  /** `putIfAbsent` never changes a value already present. */
  lemma PutIfAbsentKeeps<V>(e: Entries<V>, k: string, v: V)
    ensures Lookup(PutIfAbsent(e, k, v), k) == Some(Lookup(e, k).GetOr(v))
    ensures forall j :: j != k ==> Lookup(PutIfAbsent(e, k, v), j) == Lookup(e, j)
  {
    PutLookup(e, k, v);
  }
}
