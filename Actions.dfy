/** `SelectActionMixin` and the `action` decorator: the table of actions a list
    view offers, the choices of its action form, and the dispatch of a POSTed
    action to the selected records. */
module Actions {
  import opened Base
  import opened Dicts
  import opened IntText

  /** A Python function used as an action: its `__name__` and the attributes the
      `action` decorator sets on it (`None` while an attribute is unset). */
  class ActionFunc {
    const name: string
    var allowedPermissions: Option<seq<string>>
    var shortDescription: Option<string>
    var allowSelectAcross: Option<bool>

    constructor (name: string)
      ensures this.name == name
      ensures allowedPermissions == None && shortDescription == None && allowSelectAcross == None
    {
      this.name := name;
      allowedPermissions := None;
      shortDescription := None;
      allowSelectAcross := None;
    }
  }

  /** The keyword arguments of `action`; `None` is Python's `None`. */
  datatype ActionOptions = ActionOptions(permissions: Option<seq<string>>, description: Option<string>, allowSelectAcross: bool)

  const DefaultOptions: ActionOptions := ActionOptions(None, None, false)

  /** The inner `decorator(func)`: sets the attributes whose options were given,
      always sets `allow_select_across`, and returns the function itself. */
  method Decorate(opts: ActionOptions, func: ActionFunc) returns (r: ActionFunc)
    modifies func
    ensures r == func
    ensures func.allowedPermissions == if opts.permissions.Some? then opts.permissions else old(func.allowedPermissions)
    ensures func.shortDescription == if opts.description.Some? then opts.description else old(func.shortDescription)
    ensures func.allowSelectAcross == Some(opts.allowSelectAcross)
    ensures CanSelectAcross(func) == opts.allowSelectAcross
  {
    if opts.permissions.Some? {
      func.allowedPermissions := opts.permissions;
    }
    if opts.description.Some? {
      func.shortDescription := opts.description;
    }
    func.allowSelectAcross := Some(opts.allowSelectAcross);
    return func;
  }

  /** What `action(...)` evaluates to: the decorator still to be applied, or the
      decorated function. */
  datatype Decorated = Deferred(options: ActionOptions) | Applied(func: ActionFunc)

  /** `action(function=None, *, permissions, description, allow_select_across)`,
      with `fn` for `function`: given a function it decorates it at once; otherwise it returns the decorator. */
  method Action(fn: Option<ActionFunc>, opts: ActionOptions) returns (d: Decorated)
    modifies if fn.Some? then {fn.value} else {}
    ensures fn.None? ==> d == Deferred(opts)
    ensures fn.Some? ==> d == Applied(fn.value)
    ensures fn.Some? ==> && fn.value.allowedPermissions == (if opts.permissions.Some? then opts.permissions else old(fn.value.allowedPermissions))
                               && fn.value.shortDescription == (if opts.description.Some? then opts.description else old(fn.value.shortDescription))
                               && fn.value.allowSelectAcross == Some(opts.allowSelectAcross)
  {
    if fn.None? {
      return Deferred(opts);
    }
    var f := Decorate(opts, fn.value);
    return Applied(f);
  }

  /** `can_select_across`: the decorator's `allow_select_across`, `False` on an
      undecorated function. */
  function CanSelectAcross(func: ActionFunc): (r: bool)
    reads func
    ensures r <==> func.allowSelectAcross == Some(true)
  {
    func.allowSelectAcross.GetOr(false)
  }

  function UpperAscii(c: char): char {
    if 'a' <= c <= 'z' then (c as int - 32) as char else c
  }

  /** `capfirst(name.replace("_", " "))`. */
  function Humanize(name: string): (r: string)
    ensures |r| == |name|
    ensures forall i :: 0 < i < |name| ==> r[i] == if name[i] == '_' then ' ' else name[i]
    ensures |name| > 0 ==> r[0] == UpperAscii(if name[0] == '_' then ' ' else name[0])
  {
    if name == [] then []
    else
      var spaced := seq(|name|, i requires 0 <= i < |name| => if name[i] == '_' then ' ' else name[i]);
      [UpperAscii(spaced[0])] + spaced[1..]
  }

  /** `ModelAdmin._get_action_description(func, name)`: the decorator's
      description, or else the humanised name. */
  function Description(func: ActionFunc, name: string): string
    reads func
  {
    match func.shortDescription
    case Some(text) => text
    case None => Humanize(name)
  }

  /** An entry of `actions`: a callable, or the name of a method of the view class. */
  datatype ActionRef = Callable(func: ActionFunc) | Named(name: string)

  /** The triple `(func, name, description)`. */
  datatype ActionEntry = ActionEntry(func: ActionFunc, name: string, description: string)

  function RefReads(item: ActionRef, attrs: map<string, ActionFunc>): set<ActionFunc> {
    (if item.Callable? then {item.func} else {}) + attrs.Values
  }

  /** `get_action`: a callable stands for itself under its `__name__`; a name
      resolves through the class attributes `attrs`, and an unknown name to `None`. */
  function GetAction(item: ActionRef, attrs: map<string, ActionFunc>): (r: Option<ActionEntry>)
    reads RefReads(item, attrs)
    ensures item.Callable? ==> r.Some? && r.value.func == item.func && r.value.name == item.func.name
    ensures item.Named? ==> (r.Some? <==> item.name in attrs)
    ensures item.Named? && r.Some? ==> r.value.func == attrs[item.name] && r.value.name == item.name
    ensures r.Some? ==> r.value.description == Description(r.value.func, r.value.name)
  {
    match item
    case Callable(f) => Some(ActionEntry(f, f.name, Description(f, f.name)))
    case Named(n) => if n in attrs then Some(ActionEntry(attrs[n], n, Description(attrs[n], n))) else None
  }

  /** Every function `get_action` may look at for the items of `actions`. */
  function RefsReads(items: seq<ActionRef>, attrs: map<string, ActionFunc>): set<ActionFunc> {
    (set i | 0 <= i < |items| && items[i].Callable? :: items[i].func) + attrs.Values
  }

  /** The positions below `n` whose item resolves, ascending. */
  ghost function ResolvedPositions(items: seq<ActionRef>, attrs: map<string, ActionFunc>, n: nat): (idx: seq<int>)
    requires n <= |items|
    reads RefsReads(items, attrs)
    ensures Ascending(idx, n)
    ensures forall i :: 0 <= i < n && GetAction(items[i], attrs).Some? ==> i in idx
  {
    if n == 0 then []
    else
      var init := ResolvedPositions(items, attrs, n - 1);
      AscendingSnoc(init, n - 1);
      init + (if GetAction(items[n - 1], attrs).Some? then [n - 1] else [])
  }

  /** `_get_base_actions` over the first `n` items, in list order: the x-th entry
      is what the x-th resolving item resolves to, so unresolved names are
      dropped and nothing else is. */
  function BaseActions(items: seq<ActionRef>, attrs: map<string, ActionFunc>, n: nat): (r: seq<ActionEntry>)
    requires n <= |items|
    reads RefsReads(items, attrs)
    ensures |r| == |ResolvedPositions(items, attrs, n)|
    ensures forall x :: 0 <= x < |r| ==> GetAction(items[ResolvedPositions(items, attrs, n)[x]], attrs) == Some(r[x])
  {
    if n == 0 then []
    else
      var rest := BaseActions(items, attrs, n - 1);
      match GetAction(items[n - 1], attrs)
      case None => rest
      case Some(e) => rest + [e]
  }

  /** Django's `_filter_actions_by_permissions`: an action without
      `allowed_permissions` is kept; one with them is kept when the user holds
      one of them (`hasPermission(p)` is the view's `has_<p>_permission(request)`). */
  predicate Allowed(func: ActionFunc, hasPermission: string -> bool)
    reads func
  {
    match func.allowedPermissions
    case None => true
    case Some(ps) => exists i :: 0 <= i < |ps| && hasPermission(ps[i])
  }

  function EntriesReads(es: seq<ActionEntry>): set<ActionFunc> {
    set i | 0 <= i < |es| :: es[i].func
  }

  /** The allowed entries, in order. */
  function FilterAllowed(es: seq<ActionEntry>, hasPermission: string -> bool): (r: seq<ActionEntry>)
    reads EntriesReads(es)
    ensures |r| <= |es|
    ensures forall x :: 0 <= x < |r| ==> r[x] in es && Allowed(r[x].func, hasPermission)
    ensures forall x :: 0 <= x < |es| && Allowed(es[x].func, hasPermission) ==> es[x] in r
  {
    if es == [] then []
    else
      var last := es[|es| - 1];
      InitReads(es);
      var rest := FilterAllowed(es[..|es| - 1], hasPermission);
      if Allowed(last.func, hasPermission) then rest + [last] else rest
  }

  lemma InitReads(es: seq<ActionEntry>)
    requires es != []
    ensures EntriesReads(es[..|es| - 1]) <= EntriesReads(es)
  {
    var init := es[..|es| - 1];
    forall i | 0 <= i < |init| ensures init[i].func in EntriesReads(es) {
      assert init[i] == es[i];
    }
  }

  /** The positions of the allowed entries, ascending. */
  ghost function AllowedPositions(es: seq<ActionEntry>, hasPermission: string -> bool): seq<int>
    reads EntriesReads(es)
  {
    if es == [] then []
    else
      InitReads(es);
      AllowedPositions(es[..|es| - 1], hasPermission)
        + (if Allowed(es[|es| - 1].func, hasPermission) then [|es| - 1] else [])
  }

  /** The filter keeps list order: the x-th kept entry is the entry at the x-th
      allowed position, and every allowed position has its place. */
  lemma {:induction false} FilterAllowedInOrder(es: seq<ActionEntry>, hasPermission: string -> bool)
    ensures var r := FilterAllowed(es, hasPermission);
            var idx := AllowedPositions(es, hasPermission);
            && |idx| == |r| && Ascending(idx, |es|)
            && (forall x :: 0 <= x < |r| ==> es[idx[x]] == r[x])
            && (forall i :: 0 <= i < |es| && Allowed(es[i].func, hasPermission) ==> i in idx)
  {
    if es != [] {
      var init := es[..|es| - 1];
      var last := es[|es| - 1];
      InitReads(es);
      FilterAllowedInOrder(init, hasPermission);
      var idx' := AllowedPositions(init, hasPermission);
      var r' := FilterAllowed(init, hasPermission);
      var idx := AllowedPositions(es, hasPermission);
      if Allowed(last.func, hasPermission) {
        FilterStep(es, r', idx', r' + [last], idx' + [|es| - 1]);
        assert idx == idx' + [|es| - 1];
      } else {
        FilterStep(es, r', idx', r', idx');
        assert idx == idx';
      }
      forall i | 0 <= i < |es| && Allowed(es[i].func, hasPermission) ensures i in idx {
        if i < |es| - 1 {
          assert init[i] == es[i];
          assert i in idx';
        }
      }
    }
  }

  /** The step of `FilterAllowedInOrder` for the last entry, over plain values. */
  lemma FilterStep(es: seq<ActionEntry>, r': seq<ActionEntry>, idx': seq<int>, r: seq<ActionEntry>, idx: seq<int>)
    requires es != []
    requires |idx'| == |r'| && Ascending(idx', |es| - 1)
    requires forall x :: 0 <= x < |r'| ==> es[idx'[x]] == r'[x]
    requires (r == r' + [es[|es| - 1]] && idx == idx' + [|es| - 1]) || (r == r' && idx == idx')
    ensures |idx| == |r| && Ascending(idx, |es|)
    ensures forall x :: 0 <= x < |r| ==> es[idx[x]] == r[x]
  {
  }

  /** The dict comprehension `{name: (func, name, desc) for ...}`: later entries
      with an already-seen name replace the value but keep the key's position. */
  function TableOf(es: seq<ActionEntry>): (t: Dict<ActionEntry>)
    ensures Valid(t)
    ensures forall k :: k in t.values ==> t.values[k].name == k
  {
    if es == [] then Empty()
    else
      var last := es[|es| - 1];
      var init := TableOf(es[..|es| - 1]);
      Set(init, last.name, last)
  }

  /** Some entry is named `k`. */
  predicate NameIn(es: seq<ActionEntry>, k: string) {
    exists i :: 0 <= i < |es| && es[i].name == k
  }

  lemma NameInSnoc(es: seq<ActionEntry>, k: string)
    requires es != []
    ensures NameIn(es, k) <==> NameIn(es[..|es| - 1], k) || es[|es| - 1].name == k
  {
    var init := es[..|es| - 1];
    if NameIn(es, k) && es[|es| - 1].name != k {
      var i :| 0 <= i < |es| && es[i].name == k;
      assert init[i] == es[i];
    }
    if NameIn(init, k) {
      var i :| 0 <= i < |init| && init[i].name == k;
      assert es[i] == init[i];
    }
  }

  /** The keys are exactly the entries' names. */
  lemma {:induction false} TableOfKeys(es: seq<ActionEntry>, k: string)
    ensures k in TableOf(es).values <==> NameIn(es, k)
  {
    if es != [] {
      var init := es[..|es| - 1];
      var last := es[|es| - 1];
      TableOfKeys(init, k);
      NameInSnoc(es, k);
      assert TableOf(es).values == TableOf(init).values[last.name := last];
    }
  }

  /** Each value of the table is one of the entries. */
  lemma {:induction false} TableOfValues(es: seq<ActionEntry>, k: string)
    requires k in TableOf(es).values
    ensures TableOf(es).values[k] in es
  {
    var init := es[..|es| - 1];
    var last := es[|es| - 1];
    if k != last.name {
      TableOfValues(init, k);
      assert TableOf(es).values[k] == TableOf(init).values[k];
    }
  }

  /** The value under a name is the last entry with that name. */
  lemma {:induction false} TableLastWins(es: seq<ActionEntry>, i: int)
    requires 0 <= i < |es|
    requires forall j :: i < j < |es| ==> es[j].name != es[i].name
    ensures es[i].name in TableOf(es).values && TableOf(es).values[es[i].name] == es[i]
  {
    if i < |es| - 1 {
      var init := es[..|es| - 1];
      assert init[i] == es[i];
      TableLastWins(init, i);
    }
  }

  /** Keys follow the order in which names first appear: the entry that put an
      earlier key in the table comes before every entry carrying a later key. */
  lemma {:induction false} TableOfKeyOrder(es: seq<ActionEntry>, x: int, y: int)
    requires 0 <= x < y < |TableOf(es).keys|
    ensures exists i :: 0 <= i < |es| && es[i].name == TableOf(es).keys[x] &&
                        forall j :: 0 <= j <= i ==> es[j].name != TableOf(es).keys[y]
  {
    var init := es[..|es| - 1];
    var last := es[|es| - 1];
    var t', t := TableOf(init), TableOf(es);
    assert t == Set(t', last.name, last);
    if y < |t'.keys| {
      assert t.keys[x] == t'.keys[x] && t.keys[y] == t'.keys[y];
      TableOfKeyOrder(init, x, y);
      var i :| 0 <= i < |init| && init[i].name == t'.keys[x] &&
               forall j :: 0 <= j <= i ==> init[j].name != t'.keys[y];
      assert forall j :: 0 <= j <= i ==> es[j] == init[j];
    } else {
      assert last.name !in t'.values && t.keys[y] == last.name && t.keys[x] == t'.keys[x];
      assert t'.keys[x] in t'.values;
      TableOfKeys(init, t'.keys[x]);
      TableOfKeys(init, last.name);
      var i :| 0 <= i < |init| && init[i].name == t'.keys[x];
      assert forall j :: 0 <= j <= i ==> es[j] == init[j];
      assert es[i].name == t.keys[x];
    }
  }

  /** `get_actions`: with `actions = None` no action is offered; otherwise the
      allowed entries the list resolves to, keyed by name. */
  function GetActions(actions: Option<seq<ActionRef>>, attrs: map<string, ActionFunc>, hasPermission: string -> bool): (t: Dict<ActionEntry>)
    reads if actions.Some? then RefsReads(actions.value, attrs) else {}
    ensures Valid(t)
    ensures actions.None? ==> t.keys == [] && t.values == map[]
    ensures forall k :: k in t.values ==> t.values[k].name == k
  {
    if actions.None? then Empty()
    else
      var base := BaseActions(actions.value, attrs, |actions.value|);
      BaseActionsReads(actions.value, attrs);
      TableOf(FilterAllowed(base, hasPermission))
  }

  lemma BaseActionsReads(items: seq<ActionRef>, attrs: map<string, ActionFunc>)
    ensures EntriesReads(BaseActions(items, attrs, |items|)) <= RefsReads(items, attrs)
  {
    var base := BaseActions(items, attrs, |items|);
    forall x | 0 <= x < |base| ensures base[x].func in RefsReads(items, attrs) {
      var i :| 0 <= i < |items| && GetAction(items[i], attrs) == Some(base[x]);
    }
  }

  /** The table offers exactly the names of the allowed actions the list resolves to. */
  lemma GetActionsOffers(items: seq<ActionRef>, attrs: map<string, ActionFunc>, hasPermission: string -> bool, k: string)
    ensures k in GetActions(Some(items), attrs, hasPermission).values <==> Offered(items, attrs, hasPermission, k)
  {
    if k in GetActions(Some(items), attrs, hasPermission).values {
      OfferedIfInTable(items, attrs, hasPermission, k);
    }
    if Offered(items, attrs, hasPermission, k) {
      InTableIfOffered(items, attrs, hasPermission, k);
    }
  }

  lemma OfferedIfInTable(items: seq<ActionRef>, attrs: map<string, ActionFunc>, hasPermission: string -> bool, k: string)
    requires k in GetActions(Some(items), attrs, hasPermission).values
    ensures Offered(items, attrs, hasPermission, k)
  {
    var base := BaseActions(items, attrs, |items|);
    BaseActionsReads(items, attrs);
    var allowed := FilterAllowed(base, hasPermission);
    assert k in TableOf(allowed).values;
    TableOfKeys(allowed, k);
    var x :| 0 <= x < |allowed| && allowed[x].name == k;
    AllowedEntryOffered(items, attrs, hasPermission, allowed[x]);
  }

  /** An allowed entry of `_get_base_actions` is offered under its name. */
  lemma AllowedEntryOffered(items: seq<ActionRef>, attrs: map<string, ActionFunc>, hasPermission: string -> bool, e: ActionEntry)
    requires e in FilterAllowed(BaseActions(items, attrs, |items|), hasPermission)
    ensures Offered(items, attrs, hasPermission, e.name)
  {
    var base := BaseActions(items, attrs, |items|);
    assert e in base && Allowed(e.func, hasPermission);
    var y :| 0 <= y < |base| && base[y] == e;
    var i :| 0 <= i < |items| && GetAction(items[i], attrs) == Some(e);
    assert OfferedAt(items, attrs, hasPermission, e.name, i);
  }

  lemma InTableIfOffered(items: seq<ActionRef>, attrs: map<string, ActionFunc>, hasPermission: string -> bool, k: string)
    requires Offered(items, attrs, hasPermission, k)
    ensures k in GetActions(Some(items), attrs, hasPermission).values
  {
    var base := BaseActions(items, attrs, |items|);
    BaseActionsReads(items, attrs);
    var allowed := FilterAllowed(base, hasPermission);
    var i :| 0 <= i < |items| && OfferedAt(items, attrs, hasPermission, k, i);
    var e := GetAction(items[i], attrs).value;
    assert e in base;
    var y :| 0 <= y < |base| && base[y] == e;
    assert e in allowed;
    var x :| 0 <= x < |allowed| && allowed[x] == e;
    assert NameIn(allowed, k);
    TableOfKeys(allowed, k);
  }

  /** The action under a name is allowed and is what one item of the list resolves to. */
  lemma GetActionsEntries(items: seq<ActionRef>, attrs: map<string, ActionFunc>, hasPermission: string -> bool, k: string)
    requires k in GetActions(Some(items), attrs, hasPermission).values
    ensures var e := GetActions(Some(items), attrs, hasPermission).values[k];
            && Allowed(e.func, hasPermission)
            && exists i :: 0 <= i < |items| && GetAction(items[i], attrs) == Some(e)
  {
    var allowed := AllowedActions(items, attrs, hasPermission);
    assert GetActions(Some(items), attrs, hasPermission) == TableOf(allowed);
    var e := TableOf(allowed).values[k];
    TableOfValues(allowed, k);
    var c :| 0 <= c < |allowed| && allowed[c] == e;
    OfferingInOrder(items, attrs, hasPermission);
    var p := OfferingPositions(items, attrs, hasPermission)[c];
    assert GetAction(items[p], attrs) == Some(e);
  }

  /** The allowed base actions, from which `get_actions` builds its table. */
  ghost function AllowedActions(items: seq<ActionRef>, attrs: map<string, ActionFunc>, hasPermission: string -> bool): seq<ActionEntry>
    reads RefsReads(items, attrs)
  {
    BaseActionsReads(items, attrs);
    FilterAllowed(BaseActions(items, attrs, |items|), hasPermission)
  }

  /** The positions of the items that resolve to an allowed action, ascending. */
  ghost function OfferingPositions(items: seq<ActionRef>, attrs: map<string, ActionFunc>, hasPermission: string -> bool): (pos: seq<int>)
    reads RefsReads(items, attrs)
    ensures |pos| == |AllowedActions(items, attrs, hasPermission)|
    ensures Ascending(pos, |items|)
  {
    var base := BaseActions(items, attrs, |items|);
    var bidx := ResolvedPositions(items, attrs, |items|);
    BaseActionsReads(items, attrs);
    var aidx := AllowedPositions(base, hasPermission);
    FilterAllowedInOrder(base, hasPermission);
    AscendingCompose(bidx, aidx, |items|);
    seq(|aidx|, c requires 0 <= c < |aidx| => bidx[aidx[c]])
  }

  /** The allowed actions keep the order of `actions`: the c-th is what the c-th
      offering item resolves to. */
  lemma OfferingInOrder(items: seq<ActionRef>, attrs: map<string, ActionFunc>, hasPermission: string -> bool)
    ensures var allowed := AllowedActions(items, attrs, hasPermission);
            var pos := OfferingPositions(items, attrs, hasPermission);
            forall c :: 0 <= c < |pos| ==>
                 GetAction(items[pos[c]], attrs) == Some(allowed[c]) && Allowed(allowed[c].func, hasPermission)
  {
    var base := BaseActions(items, attrs, |items|);
    var bidx := ResolvedPositions(items, attrs, |items|);
    BaseActionsReads(items, attrs);
    var aidx := AllowedPositions(base, hasPermission);
    FilterAllowedInOrder(base, hasPermission);
    var allowed := FilterAllowed(base, hasPermission);
    assert allowed == AllowedActions(items, attrs, hasPermission);
    var pos := OfferingPositions(items, attrs, hasPermission);
    assert |pos| == |aidx|;
    forall c | 0 <= c < |pos|
      ensures GetAction(items[pos[c]], attrs) == Some(allowed[c]) && Allowed(allowed[c].func, hasPermission)
    {
      var b := aidx[c];
      assert pos[c] == bidx[b];
      assert base[b] == allowed[c];
    }
  }

  /** Every item that resolves to an allowed action has its place among them. */
  lemma OfferingComplete(items: seq<ActionRef>, attrs: map<string, ActionFunc>, hasPermission: string -> bool, q: int)
    requires 0 <= q < |items| && GetAction(items[q], attrs).Some?
    requires Allowed(GetAction(items[q], attrs).value.func, hasPermission)
    ensures exists c :: 0 <= c < |OfferingPositions(items, attrs, hasPermission)| &&
                        OfferingPositions(items, attrs, hasPermission)[c] == q &&
                        AllowedActions(items, attrs, hasPermission)[c] == GetAction(items[q], attrs).value
  {
    var base := BaseActions(items, attrs, |items|);
    var bidx := ResolvedPositions(items, attrs, |items|);
    BaseActionsReads(items, attrs);
    var aidx := AllowedPositions(base, hasPermission);
    FilterAllowedInOrder(base, hasPermission);
    var b :| 0 <= b < |bidx| && bidx[b] == q;
    assert GetAction(items[q], attrs) == Some(base[b]);
    var c :| 0 <= c < |aidx| && aidx[c] == b;
    assert OfferingPositions(items, attrs, hasPermission)[c] == q;
    assert AllowedActions(items, attrs, hasPermission) == FilterAllowed(base, hasPermission);
  }

  /** No item up to the one behind the i-th allowed action offers a name that
      none of the first i + 1 allowed actions carries. */
  lemma NoEarlierOffer(items: seq<ActionRef>, attrs: map<string, ActionFunc>, hasPermission: string -> bool, i: int, k: string)
    requires 0 <= i < |AllowedActions(items, attrs, hasPermission)|
    requires forall j :: 0 <= j <= i ==> AllowedActions(items, attrs, hasPermission)[j].name != k
    ensures forall q :: 0 <= q <= OfferingPositions(items, attrs, hasPermission)[i] ==> !OfferedAt(items, attrs, hasPermission, k, q)
  {
    var pos := OfferingPositions(items, attrs, hasPermission);
    forall q | 0 <= q <= pos[i] ensures !OfferedAt(items, attrs, hasPermission, k, q) {
      NotOfferedBefore(items, attrs, hasPermission, i, k, q);
    }
  }

  lemma NotOfferedBefore(items: seq<ActionRef>, attrs: map<string, ActionFunc>, hasPermission: string -> bool,
                         i: int, k: string, q: int)
    requires 0 <= i < |AllowedActions(items, attrs, hasPermission)|
    requires forall j :: 0 <= j <= i ==> AllowedActions(items, attrs, hasPermission)[j].name != k
    requires 0 <= q <= OfferingPositions(items, attrs, hasPermission)[i]
    ensures !OfferedAt(items, attrs, hasPermission, k, q)
  {
    var pos := OfferingPositions(items, attrs, hasPermission);
    var g := GetAction(items[q], attrs);
    if g.Some? && Allowed(g.value.func, hasPermission) {
      OfferingComplete(items, attrs, hasPermission, q);
      var c :| 0 <= c < |pos| && pos[c] == q && AllowedActions(items, attrs, hasPermission)[c] == g.value;
      AscendingMonotone(pos, |items|, c, i);
    }
  }

  /** The table's keys, and so the form's choices, follow the order of `actions`:
      the first item offering an earlier key comes before every item offering a
      later one. */
  lemma GetActionsKeyOrder(items: seq<ActionRef>, attrs: map<string, ActionFunc>, hasPermission: string -> bool,
                           x: int, y: int)
    requires 0 <= x < y < |GetActions(Some(items), attrs, hasPermission).keys|
    ensures var keys := GetActions(Some(items), attrs, hasPermission).keys;
            exists p :: 0 <= p < |items| && OfferedAt(items, attrs, hasPermission, keys[x], p) &&
                        forall q :: 0 <= q <= p ==> !OfferedAt(items, attrs, hasPermission, keys[y], q)
  {
    var allowed := AllowedActions(items, attrs, hasPermission);
    assert GetActions(Some(items), attrs, hasPermission) == TableOf(allowed);
    var keys := TableOf(allowed).keys;
    TableOfKeyOrder(allowed, x, y);
    var i :| 0 <= i < |allowed| && allowed[i].name == keys[x] &&
             forall j :: 0 <= j <= i ==> allowed[j].name != keys[y];
    NoEarlierOffer(items, attrs, hasPermission, i, keys[y]);
    OfferingInOrder(items, attrs, hasPermission);
    var p := OfferingPositions(items, attrs, hasPermission)[i];
    assert OfferedAt(items, attrs, hasPermission, keys[x], p);
  }

  /** Item `i` of `actions` resolves to an allowed action named `k`. */
  predicate OfferedAt(items: seq<ActionRef>, attrs: map<string, ActionFunc>, hasPermission: string -> bool, k: string, i: int)
    requires 0 <= i < |items|
    reads RefsReads(items, attrs)
  {
    var r := GetAction(items[i], attrs);
    r.Some? && r.value.name == k && Allowed(r.value.func, hasPermission)
  }

  predicate Offered(items: seq<ActionRef>, attrs: map<string, ActionFunc>, hasPermission: string -> bool, k: string)
    reads RefsReads(items, attrs)
  {
    exists i :: 0 <= i < |items| && OfferedAt(items, attrs, hasPermission, k, i)
  }

  /** `models.BLANK_CHOICE_DASH`. */
  const BlankChoiceDash: seq<(string, string)> := [("", "---------")]

  /** The values a choice list offers. */
  ghost predicate IsChoiceValue(choices: seq<(string, string)>, v: string) {
    exists i :: 0 <= i < |choices| && choices[i].0 == v
  }

  /** One `(name, description % opts)` per entry, in order. */
  function Listed(entries: seq<ActionEntry>, format: string -> string): (r: seq<(string, string)>)
    ensures |r| == |entries|
    ensures forall j :: 0 <= j < |entries| ==> r[j] == (entries[j].name, format(entries[j].description))
  {
    if entries == [] then []
    else Listed(entries[..|entries| - 1], format) + [(entries[|entries| - 1].name, format(entries[|entries| - 1].description))]
  }

  /** The choices are the defaults followed by one choice per value of `t`, in key order. */
  ghost predicate ListsTable(choices: seq<(string, string)>, defaultChoices: seq<(string, string)>,
                             t: Dict<ActionEntry>, format: string -> string)
  {
    Valid(t) && choices == defaultChoices + Listed(Values(t), format)
  }

  /** `get_action_choices`: the default choices, then one `(name, description %
      opts)` per action of `get_actions`, in the table's key order; `format` is
      the `%` substitution of the model's names.  The table is the one
      `get_actions` returns when called, hence `old`. */
  method GetActionChoices(actions: Option<seq<ActionRef>>, attrs: map<string, ActionFunc>, hasPermission: string -> bool,
                          defaultChoices: seq<(string, string)>, format: string -> string)
    returns (choices: seq<(string, string)>)
    ensures ListsTable(choices, defaultChoices, old(GetActions(actions, attrs, hasPermission)), format)
  {
    choices := AppendChoices(defaultChoices, Values(GetActions(actions, attrs, hasPermission)), format);
  }

  /** The loop of `get_action_choices`: one choice appended per entry, in order. */
  method AppendChoices(defaultChoices: seq<(string, string)>, entries: seq<ActionEntry>, format: string -> string)
    returns (choices: seq<(string, string)>)
    ensures choices == defaultChoices + Listed(entries, format)
  {
    choices := [] + defaultChoices;
    for i := 0 to |entries|
      invariant choices == defaultChoices + Listed(entries[..i], format)
    {
      assert entries[..i + 1][..i] == entries[..i];
      choices := choices + [(entries[i].name, format(entries[i].description))];
    }
    assert entries[..|entries|] == entries;
  }

  /** A value is offered by the choices exactly when it is a default choice's or
      names an action of the table. */
  lemma ChoiceValues(choices: seq<(string, string)>, defaultChoices: seq<(string, string)>,
                     t: Dict<ActionEntry>, format: string -> string, v: string)
    requires ListsTable(choices, defaultChoices, t, format)
    requires forall k :: k in t.values ==> t.values[k].name == k
    ensures IsChoiceValue(choices, v) <==> IsChoiceValue(defaultChoices, v) || v in t.values
  {
    var entries := Values(t);
    if IsChoiceValue(choices, v) {
      var i :| 0 <= i < |choices| && choices[i].0 == v;
      if i < |defaultChoices| {
        assert choices[..|defaultChoices|][i] == defaultChoices[i];
      } else {
        var j := i - |defaultChoices|;
        assert choices[i] == Listed(entries, format)[j];
        assert t.keys[j] in t.values;
      }
    }
    if IsChoiceValue(defaultChoices, v) {
      var i :| 0 <= i < |defaultChoices| && defaultChoices[i].0 == v;
      assert choices[..|defaultChoices|][i] == defaultChoices[i];
    }
    if v in t.values {
      var i :| 0 <= i < |t.keys| && t.keys[i] == v;
      assert entries[i] == t.values[v];
      assert choices[|defaultChoices| + i] == Listed(entries, format)[i];
    }
  }

  /** The action form accepts a value when it is not empty (the field is
      required) and is one of its choices: with `BLANK_CHOICE_DASH` first, exactly
      the names of the table. */
  lemma ActionFormAccepts(choices: seq<(string, string)>, t: Dict<ActionEntry>, format: string -> string, v: string)
    requires ListsTable(choices, BlankChoiceDash, t, format)
    requires forall k :: k in t.values ==> t.values[k].name == k
    ensures v != "" && IsChoiceValue(choices, v) <==> v != "" && v in t.values
  {
    ChoiceValues(choices, BlankChoiceDash, t, format, v);
    if IsChoiceValue(BlankChoiceDash, v) {
      var i :| 0 <= i < |BlankChoiceDash| && BlankChoiceDash[i].0 == v;
    }
  }

  /** The POST data `response_action` reads: the `action` field (absent as
      `None`), the cleaned `select_across` flag and the selected primary keys. */
  datatype PostData = PostData(action: Option<string>, selectAcross: bool, selected: seq<string>)

  /** `HttpResponseBase` objects: a response an action builds, or the redirect
      `handle_action_finished` returns. */
  datatype Response = HttpResponse(content: string) | HttpResponseRedirect(location: string)

  /** What calling an action does: return an `HttpResponseBase`, return anything
      else, raise `ActionException(message)`, or raise another exception. */
  datatype ActionValue =
    | ReturnsResponse(response: Response)
    | ReturnsOther
    | RaisesActionException(message: string)
    | RaisesOther(exception: string)

  datatype Message = Warning(text: string) | Error(text: string)

  const NoActionSelected: string := "No action selected."
  const NothingSelected: string := "Items must be selected in order to perform actions on them. No items have been changed."
  const NeedsDiscreteSelection: string := "This action requires a discrete selection of items, not all of them."

  function TooManySelected(cap: int): string {
    "Only a maximum of " + IntToText(cap) + " items can be selected at a time."
  }

  /** `response_action` returns `None`, returns a response, or lets an exception out. */
  datatype Outcome = Declined | Respond(response: Response) | Propagate(exception: string)

  /** The outcome, the messages queued on the request, and the queryset the
      action ran on (`None` when it did not run). */
  datatype Dispatch = Dispatch(outcome: Outcome, messages: seq<Message>, ranOn: Option<seq<Record>>)

  function TableReads(t: Dict<ActionEntry>): set<ActionFunc> {
    set k | k in t.values :: t.values[k].func
  }

  /** The form is valid: a non-empty action that names an action of the table. */
  predicate FormValid(post: PostData, t: Dict<ActionEntry>) {
    post.action.Some? && post.action.value != "" && post.action.value in t.values
  }

  /** `queryset.filter(pk__in=selected)`: the records whose key was selected, in
      queryset order. */
  function Restrict(queryset: seq<Record>, selected: seq<string>): (r: seq<Record>)
    ensures |r| <= |queryset|
    ensures forall x :: 0 <= x < |r| ==> r[x] in queryset && r[x].pk in selected
    ensures forall x :: 0 <= x < |queryset| && queryset[x].pk in selected ==> queryset[x] in r
  {
    if queryset == [] then []
    else
      var rest := Restrict(queryset[1..], selected);
      if queryset[0].pk in selected then [queryset[0]] + rest else rest
  }

  /** `response_action(request, queryset)`.  `cap` is `action_selection_max`,
      `fullPath` is `request.get_full_path()`, and `invoke(func, qs)` is what
      calling the action on `qs` does. */
  function ResponseAction(post: PostData, t: Dict<ActionEntry>, cap: Option<int>, queryset: seq<Record>,
                          fullPath: string, invoke: (ActionFunc, seq<Record>) -> ActionValue): (d: Dispatch)
    requires Valid(t)
    reads TableReads(t)
    // the action runs only when every check passes, and otherwise nothing happens but one message
    ensures !FormValid(post, t) ==> d == Dispatch(Declined, [Warning(NoActionSelected)], None)
    ensures FormValid(post, t) && !post.selectAcross && |post.selected| == 0 ==>
              d == Dispatch(Declined, [Warning(NothingSelected)], None)
    ensures FormValid(post, t) && !post.selectAcross && |post.selected| > 0 && cap.Some? && |post.selected| > cap.value ==>
              d == Dispatch(Declined, [Error(TooManySelected(cap.value))], None)
    ensures FormValid(post, t) && post.selectAcross && !CanSelectAcross(t.values[post.action.value].func) ==>
              d == Dispatch(Declined, [Error(NeedsDiscreteSelection)], None)
    ensures d.ranOn.Some? <==>
              && FormValid(post, t)
              && (if post.selectAcross then CanSelectAcross(t.values[post.action.value].func)
                  else |post.selected| > 0 && (cap.None? || |post.selected| <= cap.value))
    // it runs on the selected records, or on the whole queryset for `select_across`
    ensures d.ranOn.Some? && !post.selectAcross ==>
              forall r :: r in d.ranOn.value <==> r in queryset && r.pk in post.selected
    ensures d.ranOn.Some? && post.selectAcross ==> d.ranOn.value == queryset
    // a returned response is used, anything else redirects back to the page
    ensures d.ranOn.Some? ==>
              match invoke(t.values[post.action.value].func, d.ranOn.value)
              case ReturnsResponse(resp) => d.outcome == Respond(resp) && d.messages == []
              case ReturnsOther => d.outcome == Respond(HttpResponseRedirect(fullPath)) && d.messages == []
              case RaisesActionException(m) => d.outcome == Respond(HttpResponseRedirect(fullPath)) && d.messages == [Error(m)]
              case RaisesOther(e) => d.outcome == Propagate(e) && d.messages == []
  {
    if !FormValid(post, t) then Dispatch(Declined, [Warning(NoActionSelected)], None)
    else
      var func := t.values[post.action.value].func;
      if |post.selected| == 0 && !post.selectAcross then
        Dispatch(Declined, [Warning(NothingSelected)], None)
      else if !post.selectAcross && cap.Some? && |post.selected| > cap.value then
        Dispatch(Declined, [Error(TooManySelected(cap.value))], None)
      else if post.selectAcross && !CanSelectAcross(func) then
        Dispatch(Declined, [Error(NeedsDiscreteSelection)], None)
      else
        var target := if post.selectAcross then queryset else Restrict(queryset, post.selected);
        var finished := Respond(HttpResponseRedirect(fullPath));
        match invoke(func, target)
        case ReturnsResponse(resp) => Dispatch(Respond(resp), [], Some(target))
        case ReturnsOther => Dispatch(finished, [], Some(target))
        case RaisesActionException(m) => Dispatch(finished, [Error(m)], Some(target))
        case RaisesOther(e) => Dispatch(Propagate(e), [], Some(target))
  }

  /** What `post` returns: the action's response, the result of `super().post`,
      `None`, or an exception that escaped. */
  datatype PostResult = Responded(response: Response) | SuperPost | NoResponse | Raised(exception: string)

  datatype PostOutcome = PostOutcome(result: PostResult, messages: seq<Message>, ranOn: Option<seq<Record>>)

  /** `post`: with an `action` field it dispatches the action on `queryset` (the
      view's `get_queryset()`) and returns its response; otherwise, or when the
      action declined, it falls back to `super().post` when there is one. */
  function Post(post: PostData, t: Dict<ActionEntry>, cap: Option<int>, queryset: seq<Record>, fullPath: string,
                invoke: (ActionFunc, seq<Record>) -> ActionValue, hasSuperPost: bool): (r: PostOutcome)
    requires Valid(t)
    reads TableReads(t)
    ensures var fallback := if hasSuperPost then SuperPost else NoResponse;
            && (post.action.None? ==> r == PostOutcome(fallback, [], None))
            && (post.action.Some? ==>
                  var d := ResponseAction(post, t, cap, queryset, fullPath, invoke);
                  && r.messages == d.messages && r.ranOn == d.ranOn
                  && (d.outcome.Respond? ==> r.result == Responded(d.outcome.response))
                  && (d.outcome.Propagate? ==> r.result == Raised(d.outcome.exception))
                  && (d.outcome.Declined? ==> r.result == fallback))
    ensures r.result.Responded? || r.result.Raised? ==> r.ranOn.Some?
  {
    var fallback := if hasSuperPost then SuperPost else NoResponse;
    if post.action.None? then PostOutcome(fallback, [], None)
    else
      var d := ResponseAction(post, t, cap, queryset, fullPath, invoke);
      match d.outcome
      case Respond(resp) => PostOutcome(Responded(resp), d.messages, d.ranOn)
      case Propagate(e) => PostOutcome(Raised(e), d.messages, d.ranOn)
      case Declined => PostOutcome(fallback, d.messages, d.ranOn)
  }
}
