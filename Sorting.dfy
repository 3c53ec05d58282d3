/** Python's built-in `sorted`: a stable sort under a comparison, given here as an
    insertion sort that places each element before every later element it does not
    exceed.  Also Python's ordering of `str` values and of `(str, str)` tuples. */
module Sorting {
  import Base

  /** Every two values compare, and comparison chains. */
  ghost predicate TotalPreorder<T(!new)>(le: (T, T) -> bool) {
    && (forall a, b :: le(a, b) || le(b, a))
    && (forall a, b, c :: le(a, b) && le(b, c) ==> le(a, c))
  }

  /** Values that compare both ways are equal. */
  ghost predicate Antisymmetric<T(!new)>(le: (T, T) -> bool) {
    forall a, b :: le(a, b) && le(b, a) ==> a == b
  }

  ghost predicate SortedBy<T>(s: seq<T>, le: (T, T) -> bool) {
    forall i, j :: 0 <= i < j < |s| ==> le(s[i], s[j])
  }

  /** `s[k]` is no greater than any element of `s`, and no earlier element is no
      greater than it: the element a stable sort puts first. */
  ghost predicate IsFirstLeast<T>(s: seq<T>, le: (T, T) -> bool, k: int) {
    && 0 <= k < |s|
    && (forall j :: 0 <= j < |s| ==> le(s[k], s[j]))
    && (forall j :: 0 <= j < k ==> !le(s[j], s[k]))
  }

  /** Inserts `x` before the first element of `s` that it does not exceed. */
  function Insert<T>(x: T, s: seq<T>, le: (T, T) -> bool): (r: seq<T>)
    ensures |r| == |s| + 1
    ensures multiset(r) == multiset(s) + multiset{x}
  {
    if s == [] || le(x, s[0]) then [x] + s
    else
      assert s == [s[0]] + s[1..];
      [s[0]] + Insert(x, s[1..], le)
  }

  /** The stable sort of `s`: Python's `sorted(s)` when `le` is its comparison. */
  function SortBy<T>(s: seq<T>, le: (T, T) -> bool): (r: seq<T>)
    ensures |r| == |s|
    ensures multiset(r) == multiset(s)
  {
    if s == [] then []
    else
      assert s == [s[0]] + s[1..];
      Insert(s[0], SortBy(s[1..], le), le)
  }

  lemma {:induction false} InsertSorted<T(!new)>(x: T, s: seq<T>, le: (T, T) -> bool)
    requires TotalPreorder(le) && SortedBy(s, le)
    ensures SortedBy(Insert(x, s, le), le)
  {
    if s == [] || le(x, s[0]) {
      var r := [x] + s;
      forall i, j | 0 <= i < j < |r| ensures le(r[i], r[j]) {
        if i == 0 && j > 1 {
          assert le(s[0], s[j - 1]);
        }
      }
    } else {
      var t := Insert(x, s[1..], le);
      InsertSorted(x, s[1..], le);
      forall j | 0 <= j < |t| ensures le(s[0], t[j]) {
        assert t[j] in multiset(t);
        if t[j] != x {
          assert t[j] in multiset(s[1..]);
          var m :| 0 <= m < |s[1..]| && s[1..][m] == t[j];
          assert le(s[0], s[m + 1]);
        }
      }
      var r := [s[0]] + t;
      forall i, j | 0 <= i < j < |r| ensures le(r[i], r[j]) {
        if i == 0 {
          assert le(s[0], t[j - 1]);
        } else {
          assert le(t[i - 1], t[j - 1]);
        }
      }
    }
  }

  /** Python's `sorted` returns its input in non-decreasing order. */
  lemma {:induction false} SortBySorted<T(!new)>(s: seq<T>, le: (T, T) -> bool)
    requires TotalPreorder(le)
    ensures SortedBy(SortBy(s, le), le)
  {
    if s != [] {
      SortBySorted(s[1..], le);
      InsertSorted(s[0], SortBy(s[1..], le), le);
    }
  }

  /** Stability where it matters here: the head of the sorted sequence is the
      earliest-listed least element. */
  lemma {:induction false} SortByHead<T>(s: seq<T>, le: (T, T) -> bool, k: int)
    requires IsFirstLeast(s, le, k)
    ensures |SortBy(s, le)| > 0 && SortBy(s, le)[0] == s[k]
  {
    if k == 0 {
      if |s| > 1 {
        FirstLeastBeforeRest(s, le);
      }
    } else {
      RestFirstLeast(s, le, k);
      SortByHead(s[1..], le, k - 1);
    }
  }

  lemma FirstLeastBeforeRest<T>(s: seq<T>, le: (T, T) -> bool)
    requires IsFirstLeast(s, le, 0) && |s| > 1
    ensures le(s[0], SortBy(s[1..], le)[0])
  {
    var t := SortBy(s[1..], le);
    assert t[0] in multiset(s[1..]);
    var m :| 0 <= m < |s[1..]| && s[1..][m] == t[0];
    assert le(s[0], s[m + 1]);
  }

  lemma RestFirstLeast<T>(s: seq<T>, le: (T, T) -> bool, k: int)
    requires IsFirstLeast(s, le, k) && k > 0
    ensures IsFirstLeast(s[1..], le, k - 1) && !le(s[0], s[k])
  {
    forall j | 0 <= j < |s[1..]| ensures le(s[k], s[1..][j]) {
      assert le(s[k], s[j + 1]);
    }
  }

  /** The head of a sorted sequence is no greater than any of its elements. */
  lemma SortedHeadLeast<T(!new)>(a: seq<T>, le: (T, T) -> bool, x: T)
    requires TotalPreorder(le) && SortedBy(a, le) && x in multiset(a)
    ensures |a| > 0 && le(a[0], x)
  {
    var i :| 0 <= i < |a| && a[i] == x;
    if i == 0 { assert le(x, x) || le(x, x); }
  }

  /** Under a total order, a sorted arrangement of a multiset is unique. */
  lemma {:induction false} SortedUnique<T(!new)>(a: seq<T>, b: seq<T>, le: (T, T) -> bool)
    requires TotalPreorder(le) && Antisymmetric(le)
    requires SortedBy(a, le) && SortedBy(b, le)
    requires multiset(a) == multiset(b)
    ensures a == b
  {
    if a != [] {
      assert a[0] in multiset(a);
      SortedHeadLeast(b, le, a[0]);
      assert b[0] in multiset(b);
      SortedHeadLeast(a, le, b[0]);
      assert a[0] == b[0];
      var a', b' := a[1..], b[1..];
      assert a == [a[0]] + a';
      assert b == [b[0]] + b';
      assert multiset(a') == multiset(b') by {
        assert multiset(a) == multiset{a[0]} + multiset(a');
        assert multiset(b) == multiset{b[0]} + multiset(b');
        assert multiset(a') == multiset(a) - multiset{a[0]};
        assert multiset(b') == multiset(b) - multiset{b[0]};
      }
      SortedUnique(a', b', le);
    }
  }

  lemma {:induction false} DistinctAtMostOnce<T>(s: seq<T>, x: T)
    requires Base.Distinct(s)
    ensures multiset(s)[x] <= 1
  {
    if s != [] {
      assert s == [s[0]] + s[1..];
      DistinctAtMostOnce(s[1..], x);
      if x == s[0] {
        assert x !in s[1..];
      }
    }
  }

  lemma RepeatCount<T>(s: seq<T>, i: int, j: int)
    requires 0 <= i < j < |s|
    ensures s[i] == s[j] ==> multiset(s)[s[i]] >= 2
  {
    assert s == s[..j] + s[j..];
    assert s[i] in s[..j];
    assert s[j] in s[j..];
    assert multiset(s)[s[j]] == multiset(s[..j])[s[j]] + multiset(s[j..])[s[j]];
  }

  /** A rearrangement of a sequence without repeats has no repeats. */
  lemma PermutationKeepsDistinct<T>(a: seq<T>, b: seq<T>)
    requires multiset(a) == multiset(b) && Base.Distinct(a)
    ensures Base.Distinct(b)
  {
    forall i, j | 0 <= i < j < |b| ensures b[i] != b[j] {
      DistinctAtMostOnce(a, b[i]);
      RepeatCount(b, i, j);
    }
  }

  /** Python's `<=` on `str`: lexicographic by code point. */
  predicate StrLe(a: string, b: string) {
    if a == [] then true
    else if b == [] then false
    else if a[0] != b[0] then a[0] < b[0]
    else StrLe(a[1..], b[1..])
  }

  lemma {:induction false} StrLeTotal(a: string, b: string)
    ensures StrLe(a, b) || StrLe(b, a)
  {
    if a != [] && b != [] && a[0] == b[0] {
      StrLeTotal(a[1..], b[1..]);
    }
  }

  lemma {:induction false} StrLeTransitive(a: string, b: string, c: string)
    requires StrLe(a, b) && StrLe(b, c)
    ensures StrLe(a, c)
  {
    if a != [] && b != [] && c != [] && a[0] == b[0] && b[0] == c[0] {
      StrLeTransitive(a[1..], b[1..], c[1..]);
    }
  }

  lemma {:induction false} StrLeAntisymmetric(a: string, b: string)
    requires StrLe(a, b) && StrLe(b, a)
    ensures a == b
  {
    if a != [] && b != [] {
      StrLeAntisymmetric(a[1..], b[1..]);
      assert a == [a[0]] + a[1..];
      assert b == [b[0]] + b[1..];
    }
  }

  /** Python's `<=` on `(str, str)` tuples: by the first component, then by the second. */
  predicate PairLe(p: (string, string), q: (string, string)) {
    (StrLe(p.0, q.0) && p.0 != q.0) || (p.0 == q.0 && StrLe(p.1, q.1))
  }

  /** `sorted` over query-string items relies on this being a total order. */
  lemma PairLeTotalOrder()
    ensures TotalPreorder(PairLe) && Antisymmetric(PairLe)
  {
    forall p: (string, string), q: (string, string) ensures PairLe(p, q) || PairLe(q, p) {
      StrLeTotal(p.0, q.0);
      StrLeTotal(p.1, q.1);
    }
    forall p: (string, string), q: (string, string), r: (string, string) | PairLe(p, q) && PairLe(q, r)
      ensures PairLe(p, r)
    {
      if p.0 != q.0 && q.0 != r.0 {
        StrLeTransitive(p.0, q.0, r.0);
        if p.0 == r.0 { StrLeAntisymmetric(p.0, q.0); }
      } else if p.0 == q.0 && q.0 == r.0 {
        StrLeTransitive(p.1, q.1, r.1);
      }
    }
    forall p: (string, string), q: (string, string) | PairLe(p, q) && PairLe(q, p)
      ensures p == q
    {
      if p.0 == q.0 {
        StrLeAntisymmetric(p.1, q.1);
      } else {
        StrLeAntisymmetric(p.0, q.0);
      }
    }
  }
}
