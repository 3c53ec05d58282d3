/** `ListFilterMixin`: whether any filter of the list view is active, and the
    queryset narrowed by every filter specification in turn.  A filter
    specification is represented by the parameter names it expects
    (`expected_parameters()`) and, for `get_queryset`, by its `queryset` method. */
module ListFilters {
  import opened Base

  /** The concatenation of the specs' expected parameters, in spec order. */
  function Flatten(specs: seq<seq<string>>): seq<string> {
    if specs == [] then [] else specs[0] + Flatten(specs[1..])
  }

  lemma {:induction false} FlattenMembership(specs: seq<seq<string>>, x: string)
    ensures x in Flatten(specs) <==> exists i :: 0 <= i < |specs| && x in specs[i]
  {
    if specs != [] {
      FlattenMembership(specs[1..], x);
      if x in specs[0] {
        assert x in Flatten(specs);
      }
      if i :| 1 <= i < |specs| && x in specs[i] {
        assert x in specs[1..][i - 1];
      }
    }
  }

  /** The iterator `itertools.chain.from_iterable(...)` returns: one pass over the
      items, each consumed once. */
  class ChainIterator {
    const items: seq<string>
    var pos: nat

    ghost predicate Valid()
      reads this
    {
      pos <= |items|
    }

    ghost function Remaining(): seq<string>
      reads this
      requires Valid()
    {
      items[pos..]
    }

    constructor (specs: seq<seq<string>>)
      ensures Valid() && items == Flatten(specs) && pos == 0
    {
      items := Flatten(specs);
      pos := 0;
    }

    /** `x in iterator`: consumes items up to and including the first one equal to
        `x`, or every remaining item when none is. */
    method Contains(x: string) returns (found: bool)
      requires Valid()
      modifies this
      ensures Valid()
      ensures found <==> x in old(Remaining())
      ensures found ==> old(pos) < pos && items[pos - 1] == x && x !in items[old(pos)..pos - 1]
      ensures !found ==> pos == |items|
    {
      while pos < |items|
        invariant old(pos) <= pos <= |items|
        invariant x !in items[old(pos)..pos]
      {
        var item := items[pos];
        pos := pos + 1;
        if item == x {
          assert items[old(pos)..pos] == items[old(pos)..pos - 1] + [x];
          return true;
        }
        assert items[old(pos)..pos] == items[old(pos)..pos - 1] + [item];
      }
      return false;
    }
  }

  /** `has_active_filters` as written: every `param in filter_params` test reads
      the same iterator, so a first key that is not expected exhausts it and no
      later key can match.  The result depends on the first GET key alone. */
  method HasActiveFilters(specs: seq<seq<string>>, params: seq<string>) returns (active: bool)
    ensures active <==> |params| > 0 && params[0] in Flatten(specs)
  {
    var filterParams := new ChainIterator(specs);
    var results: seq<bool> := [];
    for i := 0 to |params|
      invariant filterParams.Valid() && filterParams.items == Flatten(specs)
      invariant |results| == i
      invariant i == 0 ==> filterParams.pos == 0
      invariant i > 0 ==> (results[0] <==> params[0] in Flatten(specs))
      invariant i > 0 && !results[0] ==> filterParams.pos == |filterParams.items| && true !in results
    {
      var found := filterParams.Contains(params[i]);
      results := results + [found];
    }
    active := true in results;
  }

  /** `any(param in expected for param in params)` over a list, as evidently
      intended: some GET key is an expected filter parameter. */
  method HasActiveFiltersCorrected(specs: seq<seq<string>>, params: seq<string>) returns (active: bool)
    ensures active <==> exists i, j :: 0 <= i < |params| && 0 <= j < |specs| && params[i] in specs[j]
  {
    var expected := Flatten(specs);
    active := false;
    for i := 0 to |params|
      invariant active <==> exists k :: 0 <= k < i && params[k] in expected
    {
      if params[i] in expected {
        active := true;
      }
    }
    forall i | 0 <= i < |params| ensures params[i] in expected <==> exists j :: 0 <= j < |specs| && params[i] in specs[j] {
      FlattenMembership(specs, params[i]);
    }
  }

  /** A filter parameter that is not the first GET key goes unnoticed. */
  lemma LaterKeyIgnored()
    ensures !(|["q", "status"]| > 0 && ["q", "status"][0] in Flatten([["status"]]))
    ensures "status" in Flatten([["status"]])
  {
    assert Flatten([["status"]]) == ["status"];
  }

  /** A spec's `queryset(request, queryset)`: it is handed whatever the previous
      spec returned and returns a queryset or `None`; a simple list filter with no
      value chosen returns `None`. */
  type QuerysetFilter = Option<seq<Record>> -> Option<seq<Record>>

  /** The queryset after `get_queryset` as written: the specs' `queryset` methods
      applied in turn, the first spec first, each result assigned unchecked. */
  function ApplyFilters(filters: seq<QuerysetFilter>, queryset: Option<seq<Record>>): Option<seq<Record>> {
    if filters == [] then queryset
    else filters[|filters| - 1](ApplyFilters(filters[..|filters| - 1], queryset))
  }

  /** `ListFilterMixin.get_queryset`: reassigns the queryset once per spec. */
  method GetQueryset(base: seq<Record>, filters: seq<QuerysetFilter>) returns (queryset: Option<seq<Record>>)
    ensures queryset == ApplyFilters(filters, Some(base))
  {
    queryset := Some(base);
    for i := 0 to |filters|
      invariant queryset == ApplyFilters(filters[..i], Some(base))
    {
      assert filters[..i + 1][..i] == filters[..i];
      queryset := filters[i](queryset);
    }
    assert filters[..|filters|] == filters;
  }

  /** Applying two lists of specs one after the other is applying their concatenation. */
  lemma {:induction false} ApplyFiltersConcat(f: seq<QuerysetFilter>, g: seq<QuerysetFilter>, queryset: Option<seq<Record>>)
    ensures ApplyFilters(f + g, queryset) == ApplyFilters(g, ApplyFilters(f, queryset))
  {
    if g != [] {
      assert (f + g)[..|f + g| - 1] == f + g[..|g| - 1];
      ApplyFiltersConcat(f, g[..|g| - 1], queryset);
    } else {
      assert f + g == f;
    }
  }

  /** A spec whose `queryset` returns `None` when nothing is chosen, as the
      simple list filter of Django's documentation does. */
  function Unchosen(queryset: Option<seq<Record>>): Option<seq<Record>> {
    None
  }

  /** As written, one spec with nothing chosen turns the view's queryset into
      `None`, whatever the base rows. */
  lemma UnchosenFilterLosesQueryset(base: seq<Record>)
    ensures ApplyFilters([Unchosen], Some(base)) == None
  {
    assert [Unchosen][..0] == [];
  }

  /** A spec's `queryset`, handed a queryset, returns one and not `None`. */
  ghost predicate KeepsQueryset(filter: QuerysetFilter) {
    forall queryset :: filter(Some(queryset)).Some?
  }

  /** A spec's `queryset` only keeps rows it is given. */
  ghost predicate Narrows(filter: QuerysetFilter) {
    forall queryset, r :: filter(Some(queryset)).Some? && r in filter(Some(queryset)).value ==> r in queryset
  }

  /** As written, the list holds only base rows when every spec narrows and none
      returns `None`. */
  lemma {:induction false} FiltersNarrow(filters: seq<QuerysetFilter>, base: seq<Record>)
    requires forall i :: 0 <= i < |filters| ==> Narrows(filters[i]) && KeepsQueryset(filters[i])
    ensures ApplyFilters(filters, Some(base)).Some?
    ensures forall r :: r in ApplyFilters(filters, Some(base)).value ==> r in base
  {
    if filters != [] {
      var init := filters[..|filters| - 1];
      FiltersNarrow(init, base);
      var last := filters[|filters| - 1];
      assert Narrows(last) && KeepsQueryset(last);
      assert last(ApplyFilters(init, Some(base))).Some?;
    }
  }

  /** `get_queryset` as evidently intended, and as Django's own change list does
      it: a spec returning `None` leaves the queryset as it was. */
  function ApplyFiltersSkipping(filters: seq<QuerysetFilter>, queryset: seq<Record>): seq<Record> {
    if filters == [] then queryset
    else
      var before := ApplyFiltersSkipping(filters[..|filters| - 1], queryset);
      filters[|filters| - 1](Some(before)).GetOr(before)
  }

  method GetQuerysetCorrected(base: seq<Record>, filters: seq<QuerysetFilter>) returns (queryset: seq<Record>)
    ensures queryset == ApplyFiltersSkipping(filters, base)
  {
    queryset := base;
    for i := 0 to |filters|
      invariant queryset == ApplyFiltersSkipping(filters[..i], base)
    {
      assert filters[..i + 1][..i] == filters[..i];
      var narrowed := filters[i](Some(queryset));
      if narrowed.Some? {
        queryset := narrowed.value;
      }
    }
    assert filters[..|filters|] == filters;
  }

  /** With the correction, narrowing specs keep only base rows, `None` or not. */
  lemma {:induction false} FiltersNarrowCorrected(filters: seq<QuerysetFilter>, base: seq<Record>)
    requires forall i :: 0 <= i < |filters| ==> Narrows(filters[i])
    ensures forall r :: r in ApplyFiltersSkipping(filters, base) ==> r in base
  {
    if filters != [] {
      var init := filters[..|filters| - 1];
      FiltersNarrowCorrected(init, base);
      assert Narrows(filters[|filters| - 1]);
    }
  }

  /** The correction changes nothing while no spec returns `None`. */
  lemma {:induction false} SkippingAgrees(filters: seq<QuerysetFilter>, base: seq<Record>)
    requires forall i :: 0 <= i < |filters| ==> KeepsQueryset(filters[i])
    ensures ApplyFilters(filters, Some(base)) == Some(ApplyFiltersSkipping(filters, base))
  {
    if filters != [] {
      var init := filters[..|filters| - 1];
      SkippingAgrees(init, base);
      assert KeepsQueryset(filters[|filters| - 1]);
    }
  }

  /** With the correction, a spec with nothing chosen keeps the base rows. */
  lemma UnchosenFilterSkipped(base: seq<Record>)
    ensures ApplyFiltersSkipping([Unchosen], base) == base
  {
    assert [Unchosen][..0] == [];
  }
}
