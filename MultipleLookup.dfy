/** `MultipleLookupMixin.get_object`: the URL keyword is tried against each
    lookup field in turn, and the first field that identifies a record wins. */
module MultipleLookup {
  import opened Base

  /** The exceptions `get_object` raises or lets escape. */
  datatype LookupError = AttributeError(message: string) | Http404 | MultipleObjectsReturned

  const EmptyFields: string := "'lookup_fields' cannot be empty"
  const MissingKwarg: string := "'lookup_url_kwarg' must be specified"

  /** What `queryset.get(**{field: value})` does: find one record, find none
      (`DoesNotExist`), reject the value for the field (`ValueError` or
      `ValidationError`), or find several (`MultipleObjectsReturned`). */
  datatype GetOutcome = Found(record: Record) | DoesNotExist | InvalidValue | MultipleFound

  /** The records whose `field` holds `value`; a record without the field does not match. */
  function Matching(queryset: seq<Record>, field: string, value: Option<string>): (r: seq<Record>)
    ensures |r| <= |queryset|
    ensures forall x :: 0 <= x < |r| ==> r[x] in queryset && field in r[x].fields && r[x].fields[field] == value
    ensures forall x :: 0 <= x < |queryset| && field in queryset[x].fields && queryset[x].fields[field] == value ==> queryset[x] in r
  {
    if queryset == [] then []
    else
      var rest := Matching(queryset[1..], field, value);
      if field in queryset[0].fields && queryset[0].fields[field] == value then [queryset[0]] + rest else rest
  }

  /** `queryset.get(**{field: value})`; `accepts(field, value)` says whether the
      field's type can take the value at all. */
  function QuerysetGet(queryset: seq<Record>, field: string, value: Option<string>,
                       accepts: (string, Option<string>) -> bool): (o: GetOutcome)
    ensures o.Found? ==> o.record in queryset && field in o.record.fields && o.record.fields[field] == value
    ensures o == DoesNotExist ==>
              accepts(field, value) && forall r :: r in queryset ==> !(field in r.fields && r.fields[field] == value)
  {
    if !accepts(field, value) then InvalidValue
    else
      var matches := Matching(queryset, field, value);
      if |matches| == 0 then DoesNotExist
      else if |matches| == 1 then Found(matches[0])
      else MultipleFound
  }

  /** Which outcome `get` has: a rejected value is `InvalidValue`, one matching
      record is found, and several raise `MultipleObjectsReturned`. */
  lemma QuerysetGetDecides(queryset: seq<Record>, field: string, value: Option<string>,
                           accepts: (string, Option<string>) -> bool)
    ensures var o := QuerysetGet(queryset, field, value, accepts);
            var matches := Matching(queryset, field, value);
            && (o == InvalidValue <==> !accepts(field, value))
            && (accepts(field, value) && |matches| == 1 ==> o == Found(matches[0]))
            && (accepts(field, value) && |matches| > 1 ==> o == MultipleFound)
  {
  }

  /** `get` finds a record only when it is the one record holding the value. */
  lemma FoundIsUnique(queryset: seq<Record>, field: string, value: Option<string>,
                      accepts: (string, Option<string>) -> bool, x: int)
    requires QuerysetGet(queryset, field, value, accepts).Found?
    requires 0 <= x < |queryset| && field in queryset[x].fields && queryset[x].fields[field] == value
    ensures queryset[x] == QuerysetGet(queryset, field, value, accepts).record
  {
    var matches := Matching(queryset, field, value);
    assert queryset[x] in matches;
  }

  /** The outcomes `get_object` catches and moves on from. */
  predicate Caught(o: GetOutcome) {
    o == DoesNotExist || o == InvalidValue
  }

  /** `queryset or self.get_queryset()`: an empty queryset is falsy. */
  function Chosen(queryset: Option<seq<Record>>, viewQueryset: seq<Record>): seq<Record> {
    if queryset.Some? && |queryset.value| > 0 then queryset.value else viewQueryset
  }

  /** `self.kwargs.get(self.lookup_url_kwarg)`. */
  function UrlValue(urlKwargs: map<string, string>, kwarg: string): Option<string> {
    if kwarg in urlKwargs then Some(urlKwargs[kwarg]) else None
  }

  /** Field `i` is the first whose lookup is not caught. */
  ghost predicate FirstDecisive(queryset: seq<Record>, fields: seq<string>, value: Option<string>,
                                accepts: (string, Option<string>) -> bool, i: int)
  {
    && 0 <= i < |fields|
    && !Caught(QuerysetGet(queryset, fields[i], value, accepts))
    && forall j :: 0 <= j < i ==> Caught(QuerysetGet(queryset, fields[j], value, accepts))
  }

  /** `get_object(queryset)`.  `lookupUrlKwarg` is `None` or a string, falsy when
      empty; `viewQueryset` is `self.get_queryset()`. */
  method GetObject(lookupFields: seq<string>, lookupUrlKwarg: Option<string>, urlKwargs: map<string, string>,
                   queryset: Option<seq<Record>>, viewQueryset: seq<Record>,
                   accepts: (string, Option<string>) -> bool)
    returns (r: Result<Record, LookupError>)
    ensures |lookupFields| == 0 ==> r == Failure(AttributeError(EmptyFields))
    ensures |lookupFields| > 0 && (lookupUrlKwarg.None? || lookupUrlKwarg.value == "") ==>
              r == Failure(AttributeError(MissingKwarg))
    ensures |lookupFields| > 0 && lookupUrlKwarg.Some? && lookupUrlKwarg.value != "" ==>
              var qs := Chosen(queryset, viewQueryset);
              var value := UrlValue(urlKwargs, lookupUrlKwarg.value);
              // every field missed: 404
              && (r == Failure(Http404) <==>
                    forall i :: 0 <= i < |lookupFields| ==> Caught(QuerysetGet(qs, lookupFields[i], value, accepts)))
              // otherwise the first field that did not miss decides
              && (forall i :: FirstDecisive(qs, lookupFields, value, accepts, i) ==>
                    match QuerysetGet(qs, lookupFields[i], value, accepts)
                    case Found(record) => r == Success(record)
                    case _ => r == Failure(MultipleObjectsReturned))
    ensures r.Success? ==> r.value in Chosen(queryset, viewQueryset)
  {
    if |lookupFields| == 0 {
      return Failure(AttributeError(EmptyFields));
    }
    if lookupUrlKwarg.None? || lookupUrlKwarg.value == "" {
      return Failure(AttributeError(MissingKwarg));
    }
    var qs := Chosen(queryset, viewQueryset);
    var value := UrlValue(urlKwargs, lookupUrlKwarg.value);
    var i := 0;
    while true
      invariant 0 <= i < |lookupFields|
      invariant forall j :: 0 <= j < i ==> Caught(QuerysetGet(qs, lookupFields[j], value, accepts))
      decreases |lookupFields| - i
    {
      var outcome := QuerysetGet(qs, lookupFields[i], value, accepts);
      if !Caught(outcome) {
        assert FirstDecisive(qs, lookupFields, value, accepts, i);
        OnlyOneDecisive(qs, lookupFields, value, accepts, i);
        if outcome.Found? {
          r := Success(outcome.record);
        } else {
          r := Failure(MultipleObjectsReturned);
        }
        return;
      }
      if i == |lookupFields| - 1 {
        assert forall j :: 0 <= j < |lookupFields| ==> Caught(QuerysetGet(qs, lookupFields[j], value, accepts));
        assert forall j :: !FirstDecisive(qs, lookupFields, value, accepts, j);
        return Failure(Http404);
      }
      i := i + 1;
    }
  }

  /** No two fields are each the first decisive one. */
  lemma OnlyOneDecisive(qs: seq<Record>, fields: seq<string>, value: Option<string>,
                        accepts: (string, Option<string>) -> bool, i: int)
    requires FirstDecisive(qs, fields, value, accepts, i)
    ensures forall j :: FirstDecisive(qs, fields, value, accepts, j) ==> j == i
  {
  }
}
