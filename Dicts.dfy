/** Python's `dict` with `str` keys (and the last-value view of a `QueryDict`):
    keys in insertion order, each with one value.  Assigning an existing key keeps its position;
    assigning a new key appends it; deleting a key drops it from the order. */
module Dicts {
  import opened Base

  datatype Dict<V> = Dict(keys: seq<string>, values: map<string, V>)

  ghost predicate Valid<V>(d: Dict<V>) {
    && Distinct(d.keys)
    && (forall k :: k in d.values <==> k in d.keys)
  }

  function Empty<V>(): (d: Dict<V>)
    ensures Valid(d) && d.keys == [] && d.values == map[]
  {
    Dict([], map[])
  }

  /** `d[k] = v`. */
  function Set<V>(d: Dict<V>, k: string, v: V): (r: Dict<V>)
    requires Valid(d)
    ensures Valid(r)
    ensures r.values == d.values[k := v]
    ensures r.keys == if k in d.values then d.keys else d.keys + [k]
  {
    if k in d.values then Dict(d.keys, d.values[k := v]) else Dict(d.keys + [k], d.values[k := v])
  }

  /** `s` without the occurrences of `k`, the rest in order. */
  function Without(s: seq<string>, k: string): (r: seq<string>)
    ensures forall x :: x in r <==> x in s && x != k
    ensures Distinct(s) ==> Distinct(r)
  {
    if s == [] then []
    else if s[0] == k then Without(s[1..], k)
    else
      var rest := Without(s[1..], k);
      assert Distinct(s) ==> s[0] !in s[1..];
      [s[0]] + rest
  }

  /** Dropping `k` works piecewise: the part before a split point stays before the
      part after it, so the remaining keys keep their relative order. */
  lemma {:induction false} WithoutConcat(s: seq<string>, t: seq<string>, k: string)
    ensures Without(s + t, k) == Without(s, k) + Without(t, k)
  {
    if s != [] {
      assert (s + t)[1..] == s[1..] + t;
      WithoutConcat(s[1..], t, k);
    } else {
      assert s + t == t;
    }
  }

  /** `del d[k]`. */
  function Del<V>(d: Dict<V>, k: string): (r: Dict<V>)
    requires Valid(d)
    ensures Valid(r)
    ensures r.values == d.values - {k}
    ensures r.keys == Without(d.keys, k)
  {
    Dict(Without(d.keys, k), d.values - {k})
  }

  /** `d.items()`, in key order. */
  function Items<V>(d: Dict<V>): (r: seq<(string, V)>)
    requires Valid(d)
    ensures |r| == |d.keys|
    ensures forall i :: 0 <= i < |r| ==> r[i].0 == d.keys[i] && r[i].1 == d.values[d.keys[i]]
    ensures forall k :: k in d.values ==> (k, d.values[k]) in r
  {
    var r := seq(|d.keys|, i requires 0 <= i < |d.keys| => (d.keys[i], d.values[d.keys[i]]));
    assert forall k :: k in d.values ==> (k, d.values[k]) in r by {
      forall k | k in d.values ensures (k, d.values[k]) in r {
        var i :| 0 <= i < |d.keys| && d.keys[i] == k;
        assert r[i] == (k, d.values[k]);
      }
    }
    r
  }

  /** `d.values()`, in key order. */
  function Values<V>(d: Dict<V>): (r: seq<V>)
    requires Valid(d)
    ensures |r| == |d.keys|
    ensures forall i :: 0 <= i < |r| ==> r[i] == d.values[d.keys[i]]
  {
    seq(|d.keys|, i requires 0 <= i < |d.keys| => d.values[d.keys[i]])
  }
}
