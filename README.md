# django-extensions view mixins and `build_query_string`, modelled in Dafny

This project models the decision rules inside the class-based-view mixins of
django-extensions and the `build_query_string` template tag. The mixins cover
adjustable pagination, select-and-apply bulk actions, list filters and
multi-field object lookup. The model proves what these rules promise.

- `Pagination`: `get_paginate_by` picks the allowed page size nearest to the
  requested number. Ties go to the earlier-listed size, because Python's
  `sorted` is stable. `get_pagination_choices` lists the sizes in ascending
  order, labelled by `str`.
- `Actions`: the `action` decorator mutates the attributes of a function
  object, so `ActionFunc` is a class. `get_action`, `_get_base_actions` and
  `get_actions` build the name-to-`(func, name, description)` table.
  `get_action_choices` builds the form's choices. `response_action` and
  `post` dispatch a POSTed bulk action.
- `ListFilters`: `has_active_filters` consumes one chained iterator, which is
  modelled as a class with a cursor. `get_queryset` applies the filter
  specifications in turn, handing on a `None` result unchecked; a corrected
  version skips it.
- `MultipleLookup`: `get_object` tries the URL value against each lookup field
  in order.
- `UrlTools`: `build_query_string` copies `request.GET` into an
  insertion-ordered dict, applies the keyword arguments and sorts the items.
- Supporting modules:
  - `Base` holds `Option`, `Result` and `Record` (a row with a `pk` and named
    field values).
  - `Sorting` holds Python's stable `sorted` as an insertion sort and Python's
    `str` ordering.
  - `Dicts` holds Python's insertion-ordered `dict`.
  - `IntText` holds Python's `int(str)` and `str(int)`.

Some inputs are parameters of the model rather than computed by it:

| parameter | stands for |
|---|---|
| `invoke(func, queryset)` | what calling an action does |
| `hasPermission(p)` | the view's `has_<p>_permission(request)` |
| `accepts(field, value)` | whether a model field accepts a lookup value |
| `format` | the `%` substitution of the model's names |
| `fullPath` | `request.get_full_path()` |
| `attrs` | the view class's attributes |

Django's messages framework is modelled as the list of messages queued.

## Model

| member | source | states |
|---|---|---|
| Pagination.GetPaginateBy | django_extensions/views/mixins.py:351-360 | The append loop plus stable sort returns exactly `PaginateBy`. That is the first choice at minimal distance from the parsed parameter. A missing parameter counts as 0. Text `int` rejects is `ValueError`. An empty choice list is `IndexError`. |
| Pagination.NearestIndex | django_extensions/views/mixins.py:356-359 | A reference scan, independent of sorting. Its index is at minimal `abs(choice - requested)`, and every earlier choice is strictly farther. |
| Pagination.FirstNearestUnique | django_extensions/views/mixins.py:359 | The earliest-nearest rule determines a single index. |
| Pagination.ExactChoiceKept | django_extensions/views/mixins.py:353-360 | A requested number that is itself a choice is returned unchanged, however it is written (`"25"`, `" +25"`). |
| Pagination.MissingParamGivesFirstChoice | django_extensions/views/mixins.py:340-360 | With the class defaults and no parameter, the page size is 25. |
| Pagination.TieGoesToEarlierChoice | django_extensions/views/mixins.py:357-359 | 75 is equally near 50 and 100, and the earlier-listed 50 is chosen. |
| Pagination.PaginationErrors | django_extensions/views/mixins.py:352-359 | Non-numeric text raises `ValueError` even with no choices, because only `TypeError` is caught. An empty choice list fails at `[0]`. |
| Pagination.PaginationChoicesSpec | django_extensions/views/mixins.py:362-365 | The widget choices hold every listed size exactly as often as listed, in ascending order. Each is labelled with its decimal text. |
| Pagination.ChoiceLabelRoundTrip | django_extensions/views/mixins.py:362-365 | Submitting any choice's label as the parameter makes `get_paginate_by` return that choice. |
| IntText.ParseIntText | django_extensions/views/mixins.py:353 | `int(str(n)) == n` for every integer. |
| IntText.ParseIntAccepts | django_extensions/views/mixins.py:353 | `int` accepts surrounding whitespace, a sign and digit-group underscores: `" +1_000\n"` is 1000. |
| IntText.ParseIntRejects | django_extensions/views/mixins.py:353 | `int` rejects empty text, a decimal point, doubled underscores, a leading underscore and a leading information separator (code point 28), which `int` does not strip. |
| Sorting.SortBy | django_extensions/views/mixins.py:359 | `sorted` returns a permutation of its input. |
| Sorting.SortBySorted | django_extensions/views/mixins.py:363-365 | Under a total preorder key, the result of `sorted` is ordered. |
| Sorting.SortByHead | django_extensions/views/mixins.py:359 | Stability: the head of the sorted list is the first least element of the input. |
| Sorting.SortedUnique | django_extensions/templatetags/url_tools.py:31 | Two ordered permutations of one list under an antisymmetric order are equal. |
| Sorting.PairLeTotalOrder | django_extensions/templatetags/url_tools.py:31 | Python's ordering of `(str, str)` tuples is a total order. |
| Actions.Decorate | django_extensions/views/mixins.py:37-43 | Returns the same function. Sets `allowed_permissions` and `short_description` only when given. Always sets `allow_select_across`. |
| Actions.Action | django_extensions/views/mixins.py:28-48 | Without a function, it returns the decorator with its options. With one, it returns that same function, decorated. |
| Actions.CanSelectAcross | django_extensions/views/mixins.py:143-144 | True exactly when the decorator set `allow_select_across` to true. An undecorated function gives false. |
| Actions.Humanize | django_extensions/views/mixins.py:125 | The default description: underscores become spaces, and the first letter is upper-cased. |
| Actions.GetAction | django_extensions/views/mixins.py:106-126 | A callable resolves to itself under its `__name__`. A name resolves through the class attributes, and an unknown name to `None`. The description is the decorator's, or else the humanised name. |
| Actions.BaseActions | django_extensions/views/mixins.py:77-80 | In list order: the x-th entry is what the x-th resolving item of `actions` resolves to. Only unresolved names are dropped. |
| Actions.ResolvedPositions | django_extensions/views/mixins.py:77-80 | The positions of the resolving items are strictly increasing and include every resolving item. |
| Actions.FilterAllowed | django_extensions/views/mixins.py:91 | Keeps exactly the entries whose function has no `allowed_permissions` or whose user holds one of them. |
| Actions.FilterAllowedInOrder | django_extensions/views/mixins.py:91 | The kept entries keep list order: the x-th is the entry at the x-th allowed position, and every allowed position is kept. |
| Actions.OfferingInOrder | django_extensions/views/mixins.py:80-91 | The allowed base actions are, in order, what the items that resolve to an allowed action resolve to. |
| Actions.OfferingComplete | django_extensions/views/mixins.py:80-91 | Every item that resolves to an allowed action has its place among them. |
| Actions.TableOf | django_extensions/views/mixins.py:92 | The dict comprehension yields a well-formed ordered dict in which each key maps to an entry of that name. |
| Actions.TableOfKeys | django_extensions/views/mixins.py:92 | A name is a key iff some entry carries it. |
| Actions.TableOfValues | django_extensions/views/mixins.py:92 | Every value of the table is one of the entries. |
| Actions.TableLastWins | django_extensions/views/mixins.py:92 | A name maps to the last entry carrying it. |
| Actions.TableOfKeyOrder | django_extensions/views/mixins.py:92 | Keys are in order of first appearance: the entry giving an earlier key precedes every entry carrying a later key. |
| Actions.GetActions | django_extensions/views/mixins.py:82-92 | With `actions = None` the table is empty. Every entry is keyed by its own name. |
| Actions.GetActionsOffers | django_extensions/views/mixins.py:82-92 | A name is in the table iff some item of `actions` resolves to an allowed action of that name. |
| Actions.GetActionsEntries | django_extensions/views/mixins.py:82-92 | Each table entry is allowed and is what some item of `actions` resolves to. |
| Actions.GetActionsKeyOrder | django_extensions/views/mixins.py:77-92 | The keys, and so the choices, follow `actions`: the first item offering an earlier key precedes every item offering a later one. |
| Actions.GetActionChoices | django_extensions/views/mixins.py:94-104 | The default choices come first, then one `(name, description % opts)` per value of the table `get_actions` returns, in key order. |
| Actions.AppendChoices | django_extensions/views/mixins.py:100-104 | The append loop leaves the defaults in front, followed by one choice per entry. |
| Actions.Listed | django_extensions/views/mixins.py:101-103 | One choice per entry, the i-th being the i-th entry's name and formatted description. |
| Actions.ChoiceValues | django_extensions/views/mixins.py:94-104 | A value is a choice iff it is a default choice's value or a name in the table. |
| Actions.ActionFormAccepts | django_extensions/views/mixins.py:162-166 | With `BLANK_CHOICE_DASH` first, the required action field accepts exactly the names in the table. |
| Actions.Restrict | django_extensions/views/mixins.py:197 | `filter(pk__in=selected)` keeps exactly the records whose key was selected. |
| Actions.ResponseAction | django_extensions/views/mixins.py:151-219 | Each guard returns `None` with its one message and runs nothing: an invalid form, an empty selection, more than the cap, or select-across on an action that refuses it. The action runs iff every guard passes. It runs on exactly the selected records, or on the whole queryset under select-across. Its own response is returned. Any other return value, or an `ActionException` (with its message as an error), yields the redirect. Other exceptions escape. |
| Actions.Post | django_extensions/views/mixins.py:68-75 | Without an `action` field, the result is `super().post` or `None`, with no messages. With one, the dispatch's messages are kept and a declined action falls back the same way. The action's own response is returned, and an exception that escaped it is raised. A response or an escaped exception only follows a run. |
| ListFilters.FlattenMembership | django_extensions/views/mixins.py:273-275 | A name is in the chained parameters iff some spec expects it. |
| ListFilters.ChainIterator.Contains | django_extensions/views/mixins.py:276 | `x in iterator` is true iff `x` remains. It consumes up to the first match, or everything. |
| ListFilters.HasActiveFilters | django_extensions/views/mixins.py:272-276 | As written, the result is true exactly when the first GET key is an expected filter parameter. |
| ListFilters.LaterKeyIgnored | django_extensions/views/mixins.py:276 | Counterexample: GET keys `q, status` with a spec expecting `status`. An expected parameter is present, yet the first key decides false. |
| ListFilters.HasActiveFiltersCorrected | django_extensions/views/mixins.py:272-276 | Over a materialised list, the result is true iff some GET key is expected by some spec. |
| ListFilters.GetQueryset | django_extensions/views/mixins.py:322-327 | The loop returns the base queryset passed through every spec's `queryset`, first spec first, each result (`None` included) handed on unchecked. |
| ListFilters.ApplyFiltersConcat | django_extensions/views/mixins.py:325-326 | Applying two spec lists in turn equals applying their concatenation. |
| ListFilters.FiltersNarrow | django_extensions/views/mixins.py:322-327 | As written: when every spec only keeps rows it is given and never returns `None`, the result is a queryset of base rows only. |
| ListFilters.UnchosenFilterLosesQueryset | django_extensions/views/mixins.py:325-326 | Counterexample: one spec returning `None` (nothing chosen) makes the view's queryset `None`. |
| ListFilters.GetQuerysetCorrected | django_extensions/views/mixins.py:322-327 | The corrected loop skips a `None` result: it returns `ApplyFiltersSkipping`. |
| ListFilters.FiltersNarrowCorrected | django_extensions/views/mixins.py:322-327 | Corrected: narrowing specs leave only base rows, whether or not some return `None`. |
| ListFilters.SkippingAgrees | django_extensions/views/mixins.py:322-327 | The correction changes nothing while no spec returns `None`. |
| ListFilters.UnchosenFilterSkipped | django_extensions/views/mixins.py:325-326 | Corrected: a spec with nothing chosen keeps the base rows. |
| MultipleLookup.Matching | django_extensions/views/mixins.py:415 | Exactly the records whose field holds the value. |
| MultipleLookup.QuerysetGet | django_extensions/views/mixins.py:415-416 | A found record is in the queryset and holds the value. `DoesNotExist` means the value was accepted and no record holds it. |
| MultipleLookup.QuerysetGetDecides | django_extensions/views/mixins.py:415-416 | Conversely: `InvalidValue` iff the value is rejected; one matching record is found; several give `MultipleObjectsReturned`. |
| MultipleLookup.FoundIsUnique | django_extensions/views/mixins.py:415 | `get` finds a record only when no other record holds the value. |
| MultipleLookup.GetObject | django_extensions/views/mixins.py:407-421 | Empty `lookup_fields` or a falsy `lookup_url_kwarg` raises `AttributeError`. `Http404` comes iff every field's lookup missed or was rejected. Otherwise the first field not missed decides: its record, or `MultipleObjectsReturned`. A returned record belongs to `queryset or get_queryset()`. |
| Dicts.Set | django_extensions/templatetags/url_tools.py:30 | `p[k] = v` updates the value. The key keeps its position, or is appended when new. |
| Dicts.Del | django_extensions/templatetags/url_tools.py:28 | `del p[k]` removes the key: the remaining keys are the old ones with `k` filtered out. |
| Dicts.WithoutConcat | django_extensions/templatetags/url_tools.py:28 | Filtering out a key distributes over concatenation, so the remaining keys keep their relative order. |
| Dicts.Items | django_extensions/templatetags/url_tools.py:31 | `items()` lists each key with its value, in key order. |
| Dicts.Values | django_extensions/views/mixins.py:101 | `values()` lists the value under each key, in key order. |
| UrlTools.BuildQueryString | django_extensions/templatetags/url_tools.py:8-31 | The pairs list exactly the merged mapping, by strictly ascending key. With no keyword arguments they list `request.GET` itself. The method has no `modifies` clause, so `request.GET` is unchanged. |
| UrlTools.SortedItemsRender | django_extensions/templatetags/url_tools.py:31 | `sorted(p.items())` lists the entries of `p` by ascending key. |
| UrlTools.MergeAt | django_extensions/templatetags/url_tools.py:25-30 | A key given a value ends with that value, overriding the request. A key given `None` ends absent. |
| UrlTools.MergeUntouched | django_extensions/templatetags/url_tools.py:24-30 | Keys no keyword names keep their request value, or stay absent. |
| UrlTools.DeleteAbsentIsNoop | django_extensions/templatetags/url_tools.py:26-28 | `None` for an absent key changes nothing. |
| UrlTools.MergeOrderIrrelevant | django_extensions/templatetags/url_tools.py:25-30 | The order of the keyword arguments does not matter. |
| UrlTools.RenderingUnique | django_extensions/templatetags/url_tools.py:31 | A mapping has one sorted rendering, so the output does not depend on the order of the GET keys. |

## Findings

| source | as written | input that shows it | evidently intended | confidence | as-written member | corrected member |
|---|---|---|---|---|---|---|
| django_extensions/views/mixins.py:273-276 | Every `param in filter_params` test reads the same `itertools.chain` iterator. A first GET key that is not expected exhausts it, so the result depends on the first key alone. | GET keys `q, status` and one spec expecting `status`: the result is false | true when any GET key is an expected filter parameter | not executed | ListFilters.HasActiveFilters, ListFilters.LaterKeyIgnored | ListFilters.HasActiveFiltersCorrected |
| django_extensions/views/mixins.py:322-327 | Each spec's `queryset(request, queryset)` result is assigned unchecked. A simple list filter returns `None` when none of its values is chosen, so the view's queryset becomes `None` (and the next spec is handed `None`). Django's own change list skips a `None` result. | one spec whose `queryset` returns `None` (nothing chosen): the result is `None` | a `None` result leaves the queryset as it was | not executed | ListFilters.GetQueryset, ListFilters.UnchosenFilterLosesQueryset | ListFilters.GetQuerysetCorrected, ListFilters.FiltersNarrowCorrected |

## Left out

- `settings.py`, `templatetags/model_tools.py`, `templatetags/list_filters.py`, `templatetags/misc.py` and `auth/mixins.py`: these are configuration constants, thin wrappers over Django and template rendering, with no decision logic of their own.
  - `auth/mixins.py` has a defect. Its last branch never assigns `object`, so `test_func` raises `UnboundLocalError` there.
- `get_filter_specs`: building the specs needs Django's `FieldListFilter` and `get_fields_from_path`, and caching uses `@cache`.
  - The specs are kept in `list_filter` order when `has_output()` holds.
  - The model takes the specs as given: their expected parameters and their `queryset` functions.
  - `clear_all_filters` is left out with them.
- `get_query_string` and `get_filters_params`: these are Django's `ChangeList` code, which is not part of this model. So are `get_action_form_url` and `get_pagination_form_url`, which only call it.
- `_filter_actions_by_permissions`: this is Django's code. It is modelled by its documented rule, with `has_<p>_permission(request)` as the `hasPermission` parameter. A missing `has_<p>_permission` method (an `AttributeError`) is not modelled.
- `get_action_form`, `get_pagination_form`, every `get_context_data`, `get_selection` and `handle_action_finished`: form and class construction and template rendering. `handle_action_finished` is the redirect to `fullPath`.
- `urlencode`: its percent-encoding belongs to the library. `UrlTools.BuildQueryString` returns the sorted pair list that `urlencode` serialises.
- `UrlTools.BuildQueryString`: keyword values are modelled as strings, the text `urlencode` would print. A `QueryDict` key with several values is modelled by the last value, which is what its `items()` yields.
- `Pagination.GetPaginateBy`: `request.GET` values are strings, so the `except TypeError` branch cannot be reached and is not modelled. Python's `int` also accepts non-ASCII Unicode digits and spaces, which the model rejects.
- `Pagination.GetPaginateBy`: `int()` raises `ValueError` on text of more than 4300 digits (the `sys.int_max_str_digits` limit of Python 3.11 and later); the model parses numbers of any length.
- `IntText.ParseIntText`: the round trip is stated for every integer; Python's `str` and `int` refuse integers of more than 4300 digits, which the model does not capture.
- `Actions.Humanize`: `capfirst` upper-cases only ASCII letters here. Python's `str.upper` also maps non-ASCII letters.
- `Actions.GetAction`: a name that resolves to a class attribute that is not callable is not modelled. The attributes `attrs` are all action functions.
- `Actions.GetActionChoices`: `format` is total. The `%` substitution raises `KeyError` (or `ValueError`) for a description naming a key other than the model's names, which aborts `get_action_choices` and the dispatch that builds the form; those errors are not modelled.
- `ListFilters.GetQueryset`: a spec's `queryset` that raises (as one handed `None` typically does) is not modelled; the specs are total functions.
- `Actions.ResponseAction`: the following are not modelled.
  - Form validity is the `action` field alone. The model takes the cleaned `select_across` flag as given.
  - Primary keys are compared as posted text, with no conversion to the key field's type.
  - The message texts are untranslated, and messages are a returned list rather than stored on the request.
  - `get_actions` is computed once and passed in as the table. The source calls it twice per request with the same result.
- `MultipleLookup.QuerysetGet`: a field name that the model does not have (Django's `FieldError`) is not modelled. The model treats such a record as not matching.
- Database queries, HTTP responses and `Http404` rendering are abstracted to values and outcome tags.
