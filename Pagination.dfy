/** `AdjustablePaginationMixin`: the page size a list view uses is the allowed
    choice nearest to the number requested in the query string. */
module Pagination {
  import opened Base
  import opened Sorting
  import opened IntText

  /** The class defaults `pagination_choices` and `pagination_param`. */
  const DefaultChoices: seq<int> := [25, 50, 100, 200]
  const DefaultParam: string := "paginate_by"

  /** The exceptions `get_paginate_by` lets escape: `int()` rejecting the
      parameter, and indexing the sorted list of an empty `pagination_choices`. */
  datatype PaginationError = ValueError | IndexError

  /** `abs(choice - requested)`. */
  function Distance(choice: int, requested: int): nat {
    if choice >= requested then choice - requested else requested - choice
  }

  /** `cs[k]` is nearest to `n` among the choices, and no earlier choice is as near. */
  ghost predicate IsFirstNearest(cs: seq<int>, n: int, k: int) {
    && 0 <= k < |cs|
    && (forall j :: 0 <= j < |cs| ==> Distance(cs[k], n) <= Distance(cs[j], n))
    && (forall j :: 0 <= j < k ==> Distance(cs[j], n) > Distance(cs[k], n))
  }

  /** A reference scan for the nearest choice, independent of sorting. */
  function NearestIndex(cs: seq<int>, n: int): (k: nat)
    requires |cs| > 0
    ensures IsFirstNearest(cs, n, k)
  {
    if |cs| == 1 then 0
    else
      var k := NearestIndex(cs[..|cs| - 1], n);
      if Distance(cs[|cs| - 1], n) < Distance(cs[k], n) then |cs| - 1 else k
  }

  /** The number requested: `int(GET.get(param, 0))`.  A missing parameter counts
      as 0; text `int` rejects raises `ValueError`, which the mixin does not catch. */
  function Requested(get: map<string, string>, param: string): Result<int, PaginationError> {
    if param !in get then Success(0)
    else
      match ParseInt(get[param])
      case Some(n) => Success(n)
      case None => Failure(ValueError)
  }

  /** What `get_paginate_by` returns or raises, stated without sorting. */
  function PaginateBy(get: map<string, string>, param: string, choices: seq<int>): Result<int, PaginationError> {
    match Requested(get, param)
    case Failure(e) => Failure(e)
    case Success(n) =>
      if |choices| == 0 then Failure(IndexError) else Success(choices[NearestIndex(choices, n)])
  }

  /** The sort key `lambda x: x[0]` over `(distance, choice)` pairs. */
  predicate ByDistance(a: (nat, int), b: (nat, int)) {
    a.0 <= b.0
  }

  /** `get_paginate_by`: builds the `(distance, choice)` list with an append loop,
      sorts it stably by distance and takes the first choice. */
  method GetPaginateBy(get: map<string, string>, paginationParam: string, paginationChoices: seq<int>)
    returns (r: Result<int, PaginationError>)
    ensures r == PaginateBy(get, paginationParam, paginationChoices)
  {
    var param: int;
    if paginationParam in get {
      var parsed := ParseInt(get[paginationParam]);
      if parsed.None? {
        return Failure(ValueError);
      }
      param := parsed.value;
    } else {
      param := 0;
    }
    var choices: seq<(nat, int)> := [];
    for i := 0 to |paginationChoices|
      invariant |choices| == i
      invariant forall j :: 0 <= j < i ==> choices[j] == (Distance(paginationChoices[j], param), paginationChoices[j])
    {
      choices := choices + [(Distance(paginationChoices[i], param), paginationChoices[i])];
    }
    var ordered := SortBy(choices, ByDistance);
    if |ordered| == 0 {
      return Failure(IndexError);
    }
    var k := NearestIndex(paginationChoices, param);
    SortByHead(choices, ByDistance, k);
    r := Success(ordered[0].1);
  }

  /** The requested number, when a listed choice, is kept; ties between two
      equally near choices go to the earlier-listed one. */
  lemma {:induction false} ExactChoiceKept(get: map<string, string>, param: string, cs: seq<int>, c: int)
    requires c in cs && Requested(get, param) == Success(c)
    ensures PaginateBy(get, param, cs) == Success(c)
  {
    var i :| 0 <= i < |cs| && cs[i] == c;
    var k := NearestIndex(cs, c);
    assert Distance(cs[k], c) <= Distance(cs[i], c) == 0;
  }

  /** The nearest-first rule picks exactly one index. */
  lemma FirstNearestUnique(cs: seq<int>, n: int, k: int, k': int)
    requires IsFirstNearest(cs, n, k) && IsFirstNearest(cs, n, k')
    ensures k == k'
  {
    var dk, dk' := Distance(cs[k], n), Distance(cs[k'], n);
    assert dk <= dk' && dk' <= dk;
    if k < k' {
      assert false;
    } else if k' < k {
      assert false;
    }
  }

  /** With the class defaults a missing parameter gives 25. */
  lemma MissingParamGivesFirstChoice()
    ensures PaginateBy(map[], DefaultParam, DefaultChoices) == Success(25)
  {
    assert IsFirstNearest(DefaultChoices, 0, 0);
    FirstNearestUnique(DefaultChoices, 0, 0, NearestIndex(DefaultChoices, 0));
  }

  /** 75 is as near to 50 as to 100; the earlier-listed 50 wins. */
  lemma TieGoesToEarlierChoice()
    ensures PaginateBy(map[DefaultParam := "75"], DefaultParam, DefaultChoices) == Success(50)
  {
    assert RunValue("75") == 75 by { assert "75"[..1] == "7"; }
    assert IsFirstNearest(DefaultChoices, 75, 1);
    FirstNearestUnique(DefaultChoices, 75, 1, NearestIndex(DefaultChoices, 75));
  }

  /** Text `int` rejects raises, since only `TypeError` is caught; an empty list
      of choices raises once the parameter has parsed. */
  lemma PaginationErrors()
    ensures PaginateBy(map[DefaultParam := "all"], DefaultParam, DefaultChoices) == Failure(ValueError)
    ensures PaginateBy(map[DefaultParam := "all"], DefaultParam, []) == Failure(ValueError)
    ensures PaginateBy(map[], DefaultParam, []) == Failure(IndexError)
  {
    assert !IsDigitRun("all") by { assert !IsDigit("all"[0]); }
  }

  /** `(choice, str(choice))` for every choice, in list order. */
  function Labelled(cs: seq<int>): (r: seq<(int, string)>)
    ensures |r| == |cs|
    ensures forall i :: 0 <= i < |cs| ==> r[i] == (cs[i], IntToText(cs[i]))
  {
    if cs == [] then [] else [(cs[0], IntToText(cs[0]))] + Labelled(cs[1..])
  }

  /** The sort key `lambda x: x[0]` over `(choice, label)` pairs. */
  predicate ByValue(a: (int, string), b: (int, string)) {
    a.0 <= b.0
  }

  /** `get_pagination_choices`. */
  function PaginationChoices(cs: seq<int>): seq<(int, string)> {
    SortBy(Labelled(cs), ByValue)
  }

  lemma {:induction false} LabelledCount(cs: seq<int>, c: int)
    ensures multiset(Labelled(cs))[(c, IntToText(c))] == multiset(cs)[c]
  {
    if cs != [] {
      LabelledCount(cs[1..], c);
      assert cs == [cs[0]] + cs[1..];
      assert Labelled(cs) == [(cs[0], IntToText(cs[0]))] + Labelled(cs[1..]);
    }
  }

  /** The widget's choices: every listed choice exactly as often as listed, in
      ascending order, each labelled with its decimal text. */
  lemma PaginationChoicesSpec(cs: seq<int>)
    ensures |PaginationChoices(cs)| == |cs|
    ensures forall i, j :: 0 <= i < j < |cs| ==> PaginationChoices(cs)[i].0 <= PaginationChoices(cs)[j].0
    ensures forall c :: multiset(PaginationChoices(cs))[(c, IntToText(c))] == multiset(cs)[c]
    ensures forall i :: 0 <= i < |cs| ==> PaginationChoices(cs)[i].1 == IntToText(PaginationChoices(cs)[i].0)
  {
    assert TotalPreorder(ByValue);
    SortBySorted(Labelled(cs), ByValue);
    forall c ensures multiset(PaginationChoices(cs))[(c, IntToText(c))] == multiset(cs)[c] {
      LabelledCount(cs, c);
    }
    forall i | 0 <= i < |cs| ensures PaginationChoices(cs)[i].1 == IntToText(PaginationChoices(cs)[i].0) {
      var p := PaginationChoices(cs)[i];
      assert p in multiset(Labelled(cs));
    }
  }

  /** Submitting a choice's label selects that choice: the widget and
      `get_paginate_by` agree. */
  lemma ChoiceLabelRoundTrip(get: map<string, string>, param: string, cs: seq<int>, i: int)
    requires 0 <= i < |cs|
    ensures PaginateBy(get[param := PaginationChoices(cs)[i].1], param, cs) == Success(PaginationChoices(cs)[i].0)
  {
    PaginationChoicesSpec(cs);
    var p := PaginationChoices(cs)[i];
    assert p in multiset(Labelled(cs));
    var j :| 0 <= j < |cs| && Labelled(cs)[j] == p;
    ParseIntText(p.0);
    ExactChoiceKept(get[param := p.1], param, cs, p.0);
  }
}
