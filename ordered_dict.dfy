/**
 * A Python `dict` with string keys, as an association list that keeps
 * insertion order: assigning to a present key replaces its value where it
 * stands, assigning to a new key appends it.
 */
module OrderedDict {
  import opened Wrappers

  datatype Entry<V> = Entry(key: string, value: V)

  /** The keys in iteration order. */
  function Keys<V>(t: seq<Entry<V>>): (ks: seq<string>)
    ensures |ks| == |t| && forall i :: 0 <= i < |t| ==> ks[i] == t[i].key
  {
    if t == [] then [] else [t[0].key] + Keys(t[1..])
  }

  predicate UniqueKeys<V>(t: seq<Entry<V>>) {
    forall i, j :: 0 <= i < j < |t| ==> t[i].key != t[j].key
  }

  /** `d.get(k)`. */
  function Lookup<V>(t: seq<Entry<V>>, k: string): (r: Option<V>)
    ensures r.None? <==> k !in Keys(t)
    ensures UniqueKeys(t) ==> forall i :: 0 <= i < |t| && t[i].key == k ==> r == Some(t[i].value)
  {
    if t == [] then None
    else if t[0].key == k then Some(t[0].value)
    else Lookup(t[1..], k)
  }

  /** Position of a present key: its first occurrence. */
  function IndexOf<V>(t: seq<Entry<V>>, k: string): (i: nat)
    requires k in Keys(t)
    ensures i < |t| && t[i].key == k
    ensures forall j :: 0 <= j < i ==> t[j].key != k
  {
    if t[0].key == k then 0 else 1 + IndexOf(t[1..], k)
  }

  /** `d[k] = v`. */
  function Put<V>(t: seq<Entry<V>>, k: string, v: V): (r: seq<Entry<V>>)
    ensures k in Keys(t) ==> Keys(r) == Keys(t)
    ensures k !in Keys(t) ==> Keys(r) == Keys(t) + [k] && r[|t|] == Entry(k, v)
    ensures UniqueKeys(t) ==> UniqueKeys(r)
    ensures UniqueKeys(t) ==> forall i :: 0 <= i < |t| ==> r[i] == (if t[i].key == k then Entry(k, v) else t[i])
  {
    if k in Keys(t) then t[IndexOf(t, k) := Entry(k, v)] else t + [Entry(k, v)]
  }

  /** After `d[k] = v`, `k` maps to `v` and every other key to what it mapped to before. */
  lemma LookupPut<V>(t: seq<Entry<V>>, k: string, v: V, k2: string)
    requires UniqueKeys(t)
    ensures Lookup(Put(t, k, v), k2) == if k2 == k then Some(v) else Lookup(t, k2)
  {
    var r := Put(t, k, v);
    if k2 == k {
      if k in Keys(t) {
        var i :| 0 <= i < |t| && t[i].key == k;
        assert r[i] == Entry(k, v);
      } else {
        assert r[|t|].key == k;
      }
    } else if k2 in Keys(t) {
      var i :| 0 <= i < |t| && t[i].key == k2;
      assert r[i] == t[i];
    } else {
      assert k2 !in Keys(r);
    }
  }
}
