/** A `HashMap` modelled as a list of entries with pairwise distinct keys.
    The order of the list stands for the map's iteration order, which the
    library leaves unspecified; every property stated about the encoders holds
    for any order. */
module Keyed {
  import opened Base

  function Keys<V>(ms: seq<(string, V)>): (r: seq<string>)
    ensures |r| == |ms|
    ensures forall i :: 0 <= i < |ms| ==> r[i] == ms[i].0
  {
    seq(|ms|, i requires 0 <= i < |ms| => ms[i].0)
  }

  predicate DistinctKeys<V>(ms: seq<(string, V)>)
  {
    forall i, j :: 0 <= i < j < |ms| ==> ms[i].0 != ms[j].0
  }

  /** The position of the entry for `k`, or `|ms|` when there is none. */
  function IndexOf<V>(ms: seq<(string, V)>, k: string): (j: nat)
    ensures j <= |ms|
    ensures forall t :: 0 <= t < j ==> ms[t].0 != k
    ensures j < |ms| ==> ms[j].0 == k
  {
    if |ms| == 0 then 0 else if ms[0].0 == k then 0 else 1 + IndexOf(ms[1..], k)
  }

  lemma IndexOfUnique<V>(ms: seq<(string, V)>, k: string, j: nat)
    requires j <= |ms|
    requires forall t :: 0 <= t < j ==> ms[t].0 != k
    requires j < |ms| ==> ms[j].0 == k
    ensures IndexOf(ms, k) == j
  {
  }

  /** `get`: the value stored under `k`. */
  function Lookup<V>(ms: seq<(string, V)>, k: string): (r: Option<V>)
    ensures r.None? <==> k !in Keys(ms)
    ensures r.Some? ==> exists i :: 0 <= i < |ms| && ms[i] == (k, r.value)
  {
    var i := IndexOf(ms, k);
    if i < |ms| then
      assert Keys(ms)[i] == k;
      Some(ms[i].1)
    else
      None
  }

  /** `insert`: a present key has its value replaced in place, an absent key
      is added at the end. */
  function Insert<V>(ms: seq<(string, V)>, k: string, v: V): (r: seq<(string, V)>)
    ensures Keys(ms) <= Keys(r)
    ensures DistinctKeys(ms) ==> DistinctKeys(r)
    ensures Lookup(r, k) == Some(v)
    ensures forall k' :: k' != k ==> Lookup(r, k') == Lookup(ms, k')
    ensures k in Keys(ms) ==> |r| == |ms|
    ensures k !in Keys(ms) ==> r == ms + [(k, v)]
  {
    var i := IndexOf(ms, k);
    var r := if i < |ms| then ms[i := (k, v)] else ms + [(k, v)];
    assert Keys(r)[..|ms|] == Keys(ms);
    IndexOfUnique(r, k, i);
    forall k' | k' != k ensures Lookup(r, k') == Lookup(ms, k') {
      var j := IndexOf(ms, k');
      if j < |ms| {
        IndexOfUnique(r, k', j);
      } else {
        IndexOfUnique(r, k', |r|);
      }
    }
    r
  }

  /** Inserting the entries of a list with distinct keys one by one, in
      order, rebuilds the list. */
  lemma InsertNext<V>(ms: seq<(string, V)>, i: nat)
    requires DistinctKeys(ms) && i < |ms|
    ensures Insert(ms[..i], ms[i].0, ms[i].1) == ms[..i + 1]
  {
    assert ms[i].0 !in Keys(ms[..i]);
    assert ms[..i] + [ms[i]] == ms[..i + 1];
  }

  /** Inserting a key the list already holds replaces its value in place. */
  lemma InsertPresent<V>(ms: seq<(string, V)>, k: nat, v: V)
    requires DistinctKeys(ms) && k < |ms|
    ensures Insert(ms, ms[k].0, v) == ms[k := (ms[k].0, v)]
  {
    IndexOfUnique(ms, ms[k].0, k);
  }

  /** The map a list of entries stands for. */
  function ToMap<V>(ms: seq<(string, V)>): (m: map<string, V>)
    ensures forall k :: k in m <==> k in Keys(ms)
    ensures forall k :: k in m ==> Lookup(ms, k) == Some(m[k])
  {
    map k | k in Keys(ms) :: Lookup(ms, k).value
  }

  /** Inserting into the list is `HashMap::insert` on the map it stands for:
      a repeated key keeps the last value. */
  lemma InsertIsMapUpdate<V>(ms: seq<(string, V)>, k: string, v: V)
    ensures ToMap(Insert(ms, k, v)) == ToMap(ms)[k := v]
  {
    var a := ToMap(Insert(ms, k, v));
    var b := ToMap(ms)[k := v];
    assert forall x :: x in a <==> x in b;
    assert forall x :: x in a ==> a[x] == b[x] by {
      forall x | x in a ensures a[x] == b[x] {
        if x != k {
          assert Lookup(Insert(ms, k, v), x) == Lookup(ms, x);
        }
      }
    }
  }
}
