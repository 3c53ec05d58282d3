/** Values shared by the view mixins and the template tags: optional values,
    results that carry a raised exception, and the database rows a queryset holds. */
module Base {

  datatype Option<+T> = None | Some(value: T) {
    function GetOr(default: T): T {
      match this
      case Some(v) => v
      case None => default
    }
  }

  /** The outcome of a Python call: a value, or the exception it raised. */
  datatype Result<+R, +E> = Success(value: R) | Failure(error: E)

  /** A row of a queryset: its primary key as it appears in a request, and the
      value of each model field (`None` stands for SQL NULL). */
  datatype Record = Record(pk: string, fields: map<string, Option<string>>)

  /** `idx` lists positions below `n` in strictly increasing order: the places a
      filtered list's elements held in the list it was filtered from. */
  ghost predicate Ascending(idx: seq<int>, n: int) {
    && (forall x :: 0 <= x < |idx| ==> 0 <= idx[x] < n)
    && (forall x, y :: 0 <= x < y < |idx| ==> idx[x] < idx[y])
  }

  lemma AscendingSnoc(idx: seq<int>, n: nat)
    requires Ascending(idx, n)
    ensures Ascending(idx + [n], n + 1)
  {
    var s := idx + [n];
    assert forall x :: 0 <= x < |idx| ==> s[x] == idx[x];
  }

  lemma AscendingMonotone(idx: seq<int>, n: int, a: int, b: int)
    requires Ascending(idx, n) && 0 <= a < |idx| && 0 <= b < |idx| && idx[a] <= idx[b]
    ensures a <= b
  {
  }

  /** Positions of positions: filtering a filtered list again keeps list order. */
  lemma AscendingCompose(outer: seq<int>, inner: seq<int>, n: int)
    requires Ascending(outer, n) && Ascending(inner, |outer|)
    ensures Ascending(seq(|inner|, c requires 0 <= c < |inner| => outer[inner[c]]), n)
  {
  }

  /** True when no element of `s` occurs twice. */
  predicate Distinct<T(==)>(s: seq<T>) {
    forall i, j :: 0 <= i < j < |s| ==> s[i] != s[j]
  }
}
