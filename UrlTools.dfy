/** The `build_query_string` template tag: the current request's GET parameters,
    with keyword arguments overriding them (`None` removes a key), emitted as
    `(key, value)` pairs sorted by key, which `urlencode` then serialises. */
module UrlTools {
  import opened Base
  import opened Dicts
  import opened Sorting

  /** The request object; `GET` holds, for each key, the last value a
      `QueryDict` yields from `items()`. */
  class Request {
    var GET: Dict<string>

    constructor (query: Dict<string>)
      ensures GET == query
    {
      GET := query;
    }
  }

  /** The keyword arguments of the tag, in the order given; `None` is Python's `None`. */
  type Params = seq<(string, Option<string>)>

  /** Keyword arguments never repeat a name. */
  ghost predicate DistinctKeys(params: Params) {
    forall i, j :: 0 <= i < j < |params| ==> params[i].0 != params[j].0
  }

  /** `m.get(k)`. */
  function Get(m: map<string, string>, k: string): Option<string> {
    if k in m then Some(m[k]) else None
  }

  /** The mapping the tag starts from: a copy of `request.GET`, or `{}` without a request. */
  function Start(request: Request?): map<string, string>
    reads request
  {
    if request == null then map[] else request.GET.values
  }

  /** One step of the loop: delete the key for `None`, assign it otherwise. */
  function Apply(m: map<string, string>, param: (string, Option<string>)): map<string, string> {
    match param.1
    case None => m - {param.0}
    case Some(v) => m[param.0 := v]
  }

  /** The mapping after the loop over `params`. */
  function Merge(m: map<string, string>, params: Params): map<string, string> {
    if params == [] then m else Apply(Merge(m, params[..|params| - 1]), params[|params| - 1])
  }

  /** Keys strictly ascending in Python's `str` order. */
  ghost predicate AscendingKeys(pairs: seq<(string, string)>) {
    forall i, j :: 0 <= i < j < |pairs| ==> StrLe(pairs[i].0, pairs[j].0) && pairs[i].0 != pairs[j].0
  }

  /** `pairs` lists exactly the entries of `m`, in ascending key order. */
  ghost predicate Renders(pairs: seq<(string, string)>, m: map<string, string>) {
    && AscendingKeys(pairs)
    && (forall k, v :: (k, v) in pairs <==> k in m && m[k] == v)
  }

  /** `build_query_string(request, **params)`, up to the final `urlencode`: the
      sorted items of the merged copy.  Without a `modifies` clause, the request
      is provably left as it was. */
  method BuildQueryString(request: Request?, params: Params) returns (pairs: seq<(string, string)>)
    requires request != null ==> Valid(request.GET)
    ensures Renders(pairs, Merge(Start(request), params))
    ensures params == [] ==> Renders(pairs, Start(request))
  {
    var p: Dict<string> := if request != null then request.GET else Empty();
    for i := 0 to |params|
      invariant Valid(p)
      invariant p.values == Merge(Start(request), params[..i])
    {
      assert params[..i + 1][..i] == params[..i];
      var (k, v) := params[i];
      if v.None? {
        if k in p.values {
          p := Del(p, k);
        }
      } else {
        p := Set(p, k, v.value);
      }
    }
    assert params[..|params|] == params;
    pairs := SortBy(Items(p), PairLe);
    SortedItemsRender(p);
  }

  /** No two items of a dict share a key. */
  lemma ItemsKeyed(p: Dict<string>)
    requires Valid(p)
    ensures Distinct(Items(p))
    ensures forall x, y :: x in Items(p) && y in Items(p) && x.0 == y.0 ==> x == y
  {
    var items := Items(p);
    forall x, y | x in items && y in items && x.0 == y.0 ensures x == y {
      var a :| 0 <= a < |items| && items[a] == x;
      var b :| 0 <= b < |items| && items[b] == y;
      assert p.keys[a] == p.keys[b];
    }
  }

  /** An ordered, duplicate-free list of pairs with unique keys has ascending keys. */
  lemma KeyedSortedAscending(pairs: seq<(string, string)>)
    requires SortedBy(pairs, PairLe) && Distinct(pairs)
    requires forall x, y :: x in pairs && y in pairs && x.0 == y.0 ==> x == y
    ensures AscendingKeys(pairs)
  {
    forall i, j | 0 <= i < j < |pairs| ensures StrLe(pairs[i].0, pairs[j].0) && pairs[i].0 != pairs[j].0 {
      assert PairLe(pairs[i], pairs[j]);
      assert pairs[i] != pairs[j];
    }
  }

  /** `sorted(p.items())` lists the entries of `p` by ascending key. */
  lemma SortedItemsRender(p: Dict<string>)
    requires Valid(p)
    ensures Renders(SortBy(Items(p), PairLe), p.values)
  {
    var items := Items(p);
    var pairs := SortBy(items, PairLe);
    PairLeTotalOrder();
    SortBySorted(items, PairLe);
    ItemsKeyed(p);
    PermutationKeepsDistinct(items, pairs);
    forall x ensures x in pairs <==> x in items {
      assert x in pairs <==> x in multiset(pairs);
    }
    KeyedSortedAscending(pairs);
  }

  /** A keyword given a value sets that key, overriding the request; a keyword
      given `None` leaves the key absent. */
  lemma {:induction false} MergeAt(m: map<string, string>, params: Params, i: int)
    requires DistinctKeys(params) && 0 <= i < |params|
    ensures Get(Merge(m, params), params[i].0) == params[i].1
  {
    var init := params[..|params| - 1];
    if i < |params| - 1 {
      assert DistinctKeys(init);
      assert init[i] == params[i];
      MergeAt(m, init, i);
    }
  }

  /** Keys no keyword names keep their value from the request, or stay absent. */
  lemma {:induction false} MergeUntouched(m: map<string, string>, params: Params, k: string)
    requires forall i :: 0 <= i < |params| ==> params[i].0 != k
    ensures Get(Merge(m, params), k) == Get(m, k)
  {
    if params != [] {
      var init := params[..|params| - 1];
      assert forall i :: 0 <= i < |init| ==> init[i] == params[i];
      MergeUntouched(m, init, k);
    }
  }

  lemma MapsEqualByGet(a: map<string, string>, b: map<string, string>)
    requires forall k :: Get(a, k) == Get(b, k)
    ensures a == b
  {
    assert a.Keys == b.Keys by {
      forall k ensures k in a <==> k in b { assert Get(a, k).Some? <==> Get(b, k).Some?; }
    }
    forall k | k in a ensures a[k] == b[k] { assert Get(a, k) == Get(b, k); }
  }

  /** The order of the keyword arguments does not matter. */
  lemma MergeOrderIrrelevant(m: map<string, string>, ps: Params, qs: Params)
    requires DistinctKeys(ps) && DistinctKeys(qs)
    requires forall p :: p in ps <==> p in qs
    ensures Merge(m, ps) == Merge(m, qs)
  {
    forall k ensures Get(Merge(m, ps), k) == Get(Merge(m, qs), k) {
      if i :| 0 <= i < |ps| && ps[i].0 == k {
        assert ps[i] in ps;
        var j :| 0 <= j < |qs| && qs[j] == ps[i];
        MergeAt(m, ps, i);
        MergeAt(m, qs, j);
      } else {
        forall j | 0 <= j < |qs| ensures qs[j].0 != k {
          assert qs[j] in ps;
        }
        MergeUntouched(m, ps, k);
        MergeUntouched(m, qs, k);
      }
    }
    MapsEqualByGet(Merge(m, ps), Merge(m, qs));
  }

  /** A keyword given `None` for a key that is already absent changes nothing. */
  lemma {:induction false} DeleteAbsentIsNoop(m: map<string, string>, params: Params, k: string)
    requires k !in Merge(m, params)
    ensures Merge(m, params + [(k, None)]) == Merge(m, params)
  {
    assert (params + [(k, None)])[..|params|] == params;
  }

  lemma RenderEmpty(a: seq<(string, string)>, m: map<string, string>)
    requires Renders(a, m)
    ensures a == [] <==> m == map[]
  {
    if a != [] {
      var (k, v) := a[0];
      assert (k, v) in a;
    }
    if m != map[] {
      var k :| k in m;
      assert (k, m[k]) in a;
    }
  }

  lemma RenderHead(a: seq<(string, string)>, b: seq<(string, string)>, m: map<string, string>)
    requires Renders(a, m) && Renders(b, m) && a != [] && b != []
    ensures a[0] == b[0]
  {
    var (ka, va) := a[0];
    var (kb, vb) := b[0];
    assert (ka, va) in a && (ka, va) in b;
    assert (kb, vb) in b && (kb, vb) in a;
    var i :| 0 <= i < |a| && a[i] == b[0];
    var j :| 0 <= j < |b| && b[j] == a[0];
    assert i > 0 ==> StrLe(ka, kb) && ka != kb;
    assert j > 0 ==> StrLe(kb, ka) && ka != kb;
    if i > 0 && j > 0 {
      StrLeAntisymmetric(ka, kb);
    }
  }

  lemma RenderTail(a: seq<(string, string)>, m: map<string, string>)
    requires Renders(a, m) && a != []
    ensures Renders(a[1..], m - {a[0].0})
  {
    var m' := m - {a[0].0};
    forall k, v ensures (k, v) in a[1..] <==> k in m' && m'[k] == v {
      if (k, v) in a[1..] {
        var x :| 1 <= x < |a| && a[x] == (k, v);
      }
      if k in m' && m'[k] == v {
        assert (k, v) in a;
      }
    }
  }

  /** The rendering of a mapping is unique, so the output does not depend on
      the order of the request's GET keys. */
  lemma {:induction false} RenderingUnique(a: seq<(string, string)>, b: seq<(string, string)>, m: map<string, string>)
    requires Renders(a, m) && Renders(b, m)
    ensures a == b
  {
    RenderEmpty(a, m);
    RenderEmpty(b, m);
    if a != [] {
      RenderHead(a, b, m);
      RenderTail(a, m);
      RenderTail(b, m);
      RenderingUnique(a[1..], b[1..], m - {a[0].0});
      assert a == [a[0]] + a[1..] && b == [b[0]] + b[1..];
    }
  }
}
