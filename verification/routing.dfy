/** The route registry: `Router` in `src/router.ts` and its copy in
    `src/v2/attempt2.ts`. Routes are registered in order, looked up by a
    first-match scan, and sorted once before lookups so that within a group
    of routes with the same pathname and method, later compatibility dates
    come first. */
module Routing {
  import opened Wrappers
  import opened Utils
  import Middlewares

  /** `src/router.ts`, or the copy in `src/v2/attempt2.ts`, whose `register`
      also validates the method. */
  datatype Variant = Classic | Attempt2

  datatype Route = Route(
    name: string,
    httpMethod: string,
    pathname: string,
    compatibilityDate: Option<string>,
    before: seq<Middlewares.Middleware>,
    after: seq<Middlewares.Middleware>,
    handler: nat)

  /** The options of `register`; absent middleware lists are empty ones. */
  datatype RouteOptions = RouteOptions(
    name: Option<string>,
    httpMethod: Option<string>,
    pathname: Option<string>,
    compatibilityDate: Option<string>,
    before: seq<Middlewares.Middleware>,
    after: seq<Middlewares.Middleware>)

  /** The default route name: method and pathname, with the date in
      parentheses when it is a non-empty string. */
  function DefaultName(httpMethod: string, pathname: string, date: Option<string>): string {
    httpMethod + " " + pathname + (if date.Some? && date.value != "" then " (" + date.value + ")" else "")
  }

  /** The route `register` stores: the prefix before the pathname (`*` by
      default), ALL as default method, and the default name. */
  function BuildRoute(prefix: Option<string>, o: RouteOptions, handler: nat): (r: Route)
    ensures r.pathname == prefix.GetOr("") + o.pathname.GetOr("*")
    ensures r.httpMethod == o.httpMethod.GetOr(All)
    ensures o.name.Some? ==> r.name == o.name.value
    ensures o.name.None? ==> r.name == DefaultName(r.httpMethod, r.pathname, o.compatibilityDate)
    ensures r.compatibilityDate == o.compatibilityDate
    ensures r.before == o.before && r.after == o.after && r.handler == handler
  {
    var pathname := prefix.GetOr("") + o.pathname.GetOr("*");
    var httpMethod := o.httpMethod.GetOr(All);
    var name := if o.name.Some? then o.name.value else DefaultName(httpMethod, pathname, o.compatibilityDate);
    Route(name, httpMethod, pathname, o.compatibilityDate, o.before, o.after, handler)
  }

  function SetupFailure(name: string, what: string): string {
    "[Comet] Failed to set up route '" + name + "' due to an invalid " + what + "."
  }

  /** Why `register` refuses a route, checking pathname, then (in the
      second router) method, then a present date. */
  function RegisterError(variant: Variant, rules: PathRules, r: Route): (e: Option<string>)
    ensures e.None? <==>
      && rules.isValidPathname(r.pathname)
      && (variant == Attempt2 ==> IsValidMethod(r.httpMethod))
      && ValidOptionalDate(r.compatibilityDate)
    ensures !rules.isValidPathname(r.pathname) ==> e == Some(SetupFailure(r.name, "pathname"))
  {
    if !rules.isValidPathname(r.pathname) then Some(SetupFailure(r.name, "pathname"))
    else if variant == Attempt2 && !IsValidMethod(r.httpMethod) then Some(SetupFailure(r.name, "method"))
    else if r.compatibilityDate.Some? && !IsValidCompatibilityDate(r.compatibilityDate.value) then
      Some(SetupFailure(r.name, "compatibility date"))
    else None
  }

  predicate Admitted(variant: Variant, rules: PathRules, r: Route) {
    RegisterError(variant, rules, r).None?
  }

  /** The arguments of `find`; the second router always looks dates up. */
  datatype Query = Query(
    pathname: string,
    httpMethod: string,
    compatibilityDate: Option<string>,
    ignoreCompatibilityDate: bool)

  /** A route `find` accepts: pathname and method match, and so does the date
      unless dates are ignored. */
  predicate Qualifies(r: Route, q: Query, rules: PathRules) {
    && rules.pathnamesMatch(q.pathname, r.pathname)
    && MethodsMatch(q.httpMethod, r.httpMethod)
    && (q.ignoreCompatibilityDate || DatesMatch(q.compatibilityDate, r.compatibilityDate))
  }

  /** The index of the first qualifying route, or |rs| when none qualifies. */
  function FirstMatch(rs: seq<Route>, q: Query, rules: PathRules): (i: nat)
    ensures i <= |rs|
    ensures i < |rs| ==> Qualifies(rs[i], q, rules)
    ensures forall j | 0 <= j < i :: !Qualifies(rs[j], q, rules)
  {
    if rs == [] then 0
    else if Qualifies(rs[0], q, rules) then 0
    else
      var i := FirstMatch(rs[1..], q, rules);
      assert forall j | 1 <= j < 1 + i :: rs[j] == rs[1..][j - 1];
      1 + i
  }

  /** What `find` returns. */
  function Lookup(rs: seq<Route>, q: Query, rules: PathRules): (r: Option<Route>)
    ensures r.None? <==> forall j | 0 <= j < |rs| :: !Qualifies(rs[j], q, rules)
    ensures r.Some? ==> r.value in rs && Qualifies(r.value, q, rules)
  {
    var i := FirstMatch(rs, q, rules);
    if i < |rs| then Some(rs[i]) else None
  }

  /** Routes appended later never take over a lookup that already succeeds. */
  lemma LookupAppend(rs: seq<Route>, r: Route, q: Query, rules: PathRules)
    ensures Lookup(rs, q, rules).Some? ==> Lookup(rs + [r], q, rules) == Lookup(rs, q, rules)
    ensures Lookup(rs, q, rules).None? ==>
      Lookup(rs + [r], q, rules) == if Qualifies(r, q, rules) then Some(r) else None
  {
    var i := FirstMatch(rs, q, rules);
    var xs := rs + [r];
    assert forall j | 0 <= j < |rs| :: xs[j] == rs[j];
    var k := FirstMatch(xs, q, rules);
    if i < |rs| {
      assert k == i;
    } else {
      assert xs[|rs|] == r;
    }
  }

  /** Ignoring dates finds a route no later in the list, and finds one
      whenever the dated lookup does. */
  lemma IgnoringDates(rs: seq<Route>, q: Query, rules: PathRules)
    ensures FirstMatch(rs, q.(ignoreCompatibilityDate := true), rules) <= FirstMatch(rs, q, rules)
    ensures Lookup(rs, q, rules).Some? ==> Lookup(rs, q.(ignoreCompatibilityDate := true), rules).Some?
  {
    var i := FirstMatch(rs, q, rules);
    if i < |rs| {
      assert Qualifies(rs[i], q.(ignoreCompatibilityDate := true), rules);
    }
  }

  // ---------- the order `init` establishes ----------

  predicate SameGroup(a: Route, b: Route) {
    a.pathname == b.pathname && a.httpMethod == b.httpMethod
  }

  /** The sort comparator: 0 across groups; within a group -1 when `b`'s date
      matches a request dated `a`'s date, else 1. */
  function Compare(a: Route, b: Route): int {
    if !SameGroup(a, b) then 0
    else if DatesMatch(a.compatibilityDate, b.compatibilityDate) then -1
    else 1
  }

  predicate ValidDates(rs: seq<Route>) {
    forall i | 0 <= i < |rs| :: ValidOptionalDate(rs[i].compatibilityDate)
  }

  /** Neighbours are in comparator order. */
  predicate AdjacentSorted(rs: seq<Route>) {
    forall k | 0 < k < |rs| :: Compare(rs[k - 1], rs[k]) <= 0
  }

  /** Within each group, a route's date is never earlier than a later route's
      (an absent date counts as the earliest). */
  predicate GroupSorted(rs: seq<Route>) {
    forall i, j | 0 <= i < j < |rs| && SameGroup(rs[i], rs[j]) :: DatesMatch(rs[i].compatibilityDate, rs[j].compatibilityDate)
  }

  /** The routes of each group are next to each other. */
  predicate Contiguous(rs: seq<Route>) {
    forall i, j, k | 0 <= i < j < k < |rs| && SameGroup(rs[i], rs[k]) :: SameGroup(rs[i], rs[j])
  }

  /** Each slot keeps the group it had. */
  predicate SameSlots(a: seq<Route>, b: seq<Route>) {
    |a| == |b| && forall i {:trigger SameGroup(a[i], b[i])} | 0 <= i < |a| :: SameGroup(a[i], b[i])
  }

  /** The comparator orders two valid routes one way or the other. */
  lemma CompareFlip(a: Route, b: Route)
    requires ValidOptionalDate(a.compatibilityDate) && ValidOptionalDate(b.compatibilityDate)
    requires Compare(a, b) > 0
    ensures SameGroup(a, b) && Compare(b, a) <= 0
  {
    DatesMatchPreorder(a.compatibilityDate, b.compatibilityDate, b.compatibilityDate);
  }

  lemma {:induction false} ChainSorted(rs: seq<Route>, i: nat, j: nat)
    requires i < j < |rs| && AdjacentSorted(rs) && ValidDates(rs)
    requires forall k | i <= k <= j :: SameGroup(rs[i], rs[k])
    ensures DatesMatch(rs[i].compatibilityDate, rs[j].compatibilityDate)
    decreases j - i
  {
    assert Compare(rs[j - 1], rs[j]) <= 0 && SameGroup(rs[j - 1], rs[j]);
    if i < j - 1 {
      ChainSorted(rs, i, j - 1);
      DatesMatchPreorder(rs[i].compatibilityDate, rs[j - 1].compatibilityDate, rs[j].compatibilityDate);
    }
  }

  /** When every group is contiguous, neighbour order is group order. */
  lemma AdjacentToGroupSorted(rs: seq<Route>)
    requires AdjacentSorted(rs) && Contiguous(rs) && ValidDates(rs)
    ensures GroupSorted(rs)
  {
    forall i, j | 0 <= i < j < |rs| && SameGroup(rs[i], rs[j])
      ensures DatesMatch(rs[i].compatibilityDate, rs[j].compatibilityDate)
    {
      ChainSorted(rs, i, j);
    }
  }

  /** On group-sorted routes, a dated lookup returns the route with the
      latest date among the qualifying routes of its group. */
  lemma LookupLatest(rs: seq<Route>, q: Query, rules: PathRules)
    requires GroupSorted(rs) && ValidDates(rs)
    requires Lookup(rs, q, rules).Some?
    ensures forall j | 0 <= j < |rs| && SameGroup(rs[j], Lookup(rs, q, rules).value) && Qualifies(rs[j], q, rules) ::
      DatesMatch(Lookup(rs, q, rules).value.compatibilityDate, rs[j].compatibilityDate)
  {
    var i := FirstMatch(rs, q, rules);
    forall j | 0 <= j < |rs| && SameGroup(rs[j], rs[i]) && Qualifies(rs[j], q, rules)
      ensures DatesMatch(rs[i].compatibilityDate, rs[j].compatibilityDate)
    {
      if j == i {
        DatesMatchPreorder(rs[i].compatibilityDate, rs[i].compatibilityDate, rs[i].compatibilityDate);
      }
    }
  }

  /** `rs` with the neighbours at `k - 1` and `k` exchanged. */
  function Swap(rs: seq<Route>, k: nat): (r: seq<Route>)
    requires 0 < k < |rs|
    ensures |r| == |rs| && r[k - 1] == rs[k] && r[k] == rs[k - 1]
    ensures forall m | 0 <= m < |rs| && m != k - 1 && m != k :: r[m] == rs[m]
    ensures multiset(r) == multiset(rs)
  {
    rs[k - 1 := rs[k]][k := rs[k - 1]]
  }

  /** The comparator reorders only routes of one group, and of two routes of
      `rs` it puts after the other, it puts the other first. */
  ghost predicate Flippable(cmp: (Route, Route) -> int, rs: seq<Route>) {
    forall a, b {:trigger FlipPair(cmp, a, b)} | a in rs && b in rs :: FlipPair(cmp, a, b)
  }

  /** `cmp` puts `a` after `b` only within a group, and then puts `b` before `a`. */
  ghost predicate FlipPair(cmp: (Route, Route) -> int, a: Route, b: Route) {
    cmp(a, b) > 0 ==> SameGroup(a, b) && cmp(b, a) <= 0
  }

  /** The neighbours at `m - 1` and `m` are in the order of `cmp`. */
  ghost predicate Ordered(cmp: (Route, Route) -> int, rs: seq<Route>, m: nat)
    requires 0 < m < |rs|
  {
    cmp(rs[m - 1], rs[m]) <= 0
  }

  /** Neighbours among the first `n` routes are in the order of `cmp`. */
  ghost predicate SortedBy(cmp: (Route, Route) -> int, rs: seq<Route>, n: nat)
    requires n <= |rs|
  {
    forall m | 0 < m < n :: Ordered(cmp, rs, m)
  }

  /** Every route of `r` is one of `rs`. */
  ghost predicate Drawn(r: seq<Route>, rs: seq<Route>) {
    forall m | 0 <= m < |r| :: r[m] in rs
  }

  /** A comparator flippable on some routes is flippable on any routes drawn from them. */
  lemma FlippableDrawn(cmp: (Route, Route) -> int, r: seq<Route>, rs: seq<Route>)
    requires Flippable(cmp, rs) && Drawn(r, rs)
    ensures Flippable(cmp, r)
  {
    forall a, b | a in r && b in r ensures FlipPair(cmp, a, b) {
      var x :| 0 <= x < |r| && r[x] == a;
      var y :| 0 <= y < |r| && r[y] == b;
      assert a in rs && b in rs;
    }
  }

  /** Exchanging a neighbour pair that `cmp` puts the wrong way round keeps
      every other neighbour pair of the first `i + 1` routes in order and
      moves the one pair that may be out of order one step left. */
  lemma SwapStep(r: seq<Route>, k: nat, i: nat, cmp: (Route, Route) -> int)
    requires 0 < k <= i < |r|
    requires cmp(r[k - 1], r[k]) > 0 && SameGroup(r[k - 1], r[k]) && cmp(r[k], r[k - 1]) <= 0
    requires forall m | 0 < m <= i && m != k :: Ordered(cmp, r, m)
    requires 0 < k < i ==> cmp(r[k - 1], r[k + 1]) <= 0
    ensures SameSlots(r, Swap(r, k))
    ensures forall m | 0 < m <= i && m != k - 1 :: Ordered(cmp, Swap(r, k), m)
    ensures 0 < k - 1 < i ==> cmp(Swap(r, k)[k - 2], Swap(r, k)[k]) <= 0
  {
    var s := Swap(r, k);
    forall m | 0 <= m < |r| ensures SameGroup(r[m], s[m]) {
      if m != k - 1 && m != k {
        assert s[m] == r[m];
      }
    }
    forall m | 0 < m <= i && m != k - 1 ensures Ordered(cmp, s, m) {
      if m == k + 1 {
        assert s[m - 1] == r[k - 1] && s[m] == r[k + 1];
      } else if m != k {
        assert Ordered(cmp, r, m);
        assert s[m - 1] == r[m - 1] && s[m] == r[m];
      }
    }
    if 0 < k - 1 < i {
      assert Ordered(cmp, r, k - 1) && s[k - 2] == r[k - 2];
    }
  }

  /** Keeping each slot's group twice keeps it. */
  lemma SameSlotsTrans(a: seq<Route>, b: seq<Route>, c: seq<Route>)
    requires SameSlots(a, b) && SameSlots(b, c)
    ensures SameSlots(a, c)
  {
    forall i | 0 <= i < |a| ensures SameGroup(a[i], c[i]) {
      assert SameGroup(a[i], b[i]) && SameGroup(b[i], c[i]);
    }
  }

  /** Exchanging a neighbour pair draws from the same routes. */
  lemma SwapDrawn(rs: seq<Route>, r: seq<Route>, k: nat)
    requires 0 < k < |r| && Drawn(r, rs)
    ensures Drawn(Swap(r, k), rs)
  {
    var s := Swap(r, k);
    forall m | 0 <= m < |s| ensures s[m] in rs {
      if m == k - 1 {
        assert s[m] == r[k];
      } else if m == k {
        assert s[m] == r[k - 1];
      } else {
        assert s[m] == r[m];
      }
    }
  }

  /** One pass of the insertion sort: moves `rs[i]` left past every
      neighbour the comparator puts after it, so that the first `i + 1`
      routes are in comparator order. */
  method Insert(rs: seq<Route>, i: nat, cmp: (Route, Route) -> int) returns (r: seq<Route>)
    requires i < |rs| && Flippable(cmp, rs) && SortedBy(cmp, rs, i)
    ensures multiset(r) == multiset(rs) && SameSlots(rs, r) && Drawn(r, rs)
    ensures SortedBy(cmp, r, i + 1)
  {
    r := rs;
    var k := i;
    while k > 0 && cmp(r[k - 1], r[k]) > 0
      invariant 0 <= k <= i < |r| == |rs|
      invariant multiset(r) == multiset(rs) && SameSlots(rs, r) && Drawn(r, rs)
      invariant forall m | 0 < m <= i && m != k :: Ordered(cmp, r, m)
      invariant 0 < k < i ==> cmp(r[k - 1], r[k + 1]) <= 0
    {
      assert r[k - 1] in rs && r[k] in rs;
      assert FlipPair(cmp, r[k - 1], r[k]);
      SwapStep(r, k, i, cmp);
      SameSlotsTrans(rs, r, Swap(r, k));
      SwapDrawn(rs, r, k);
      r := Swap(r, k);
      k := k - 1;
    }
  }

  /** `Array.prototype.sort` with a comparator, as a stable insertion sort. */
  method Sort(rs: seq<Route>, cmp: (Route, Route) -> int) returns (r: seq<Route>)
    requires Flippable(cmp, rs)
    ensures multiset(r) == multiset(rs) && SameSlots(rs, r) && Drawn(r, rs)
    ensures SortedBy(cmp, r, |r|)
  {
    r := rs;
    var i := 0;
    while i < |r|
      invariant 0 <= i <= |r| == |rs|
      invariant multiset(r) == multiset(rs) && SameSlots(rs, r) && Drawn(r, rs)
      invariant SortedBy(cmp, r, i)
    {
      FlippableDrawn(cmp, r, rs);
      var r' := Insert(r, i, cmp);
      SameSlotsTrans(rs, r, r');
      assert Drawn(r', rs) by {
        forall m | 0 <= m < |r'| ensures r'[m] in rs {
          var x :| 0 <= x < |r| && r[x] == r'[m];
        }
      }
      r := r';
      i := i + 1;
    }
  }

  /** The source comparator on valid routes is flippable. */
  lemma CompareFlippable(rs: seq<Route>)
    requires ValidDates(rs)
    ensures Flippable(Compare, rs)
  {
    forall a, b | a in rs && b in rs ensures FlipPair(Compare, a, b) {
      if Compare(a, b) > 0 {
        CompareFlip(a, b);
      }
    }
  }

  class Router {
    const variant: Variant
    const prefix: Option<string>
    const rules: PathRules
    var routes: seq<Route>
    var ready: bool

    /** Every stored route passed `register`'s checks, and a ready router is sorted. */
    ghost predicate Valid()
      reads this
    {
      && (forall i | 0 <= i < |routes| :: Admitted(variant, rules, routes[i]))
      && (ready ==> AdjacentSorted(routes))
    }

    /** A new router has no routes and is ready. */
    constructor(variant: Variant, prefix: Option<string>, rules: PathRules)
      ensures this.variant == variant && this.prefix == prefix && this.rules == rules
      ensures routes == [] && ready && Valid()
    {
      this.variant := variant;
      this.prefix := prefix;
      this.rules := rules;
      routes := [];
      ready := true;
    }

    /** `register`: builds the route; appends it and marks the router as not
      ready, or reports why it refuses it and changes nothing. */
    method Register(options: RouteOptions, handler: nat) returns (error: Option<string>)
      requires Valid()
      modifies this
      ensures Valid()
      ensures error == RegisterError(variant, rules, BuildRoute(prefix, options, handler))
      ensures error.None? ==> routes == old(routes) + [BuildRoute(prefix, options, handler)] && !ready
      ensures error.Some? ==> routes == old(routes) && ready == old(ready)
    {
      var route := BuildRoute(prefix, options, handler);
      if !rules.isValidPathname(route.pathname) {
        return Some(SetupFailure(route.name, "pathname"));
      }
      if variant == Attempt2 && !IsValidMethod(route.httpMethod) {
        return Some(SetupFailure(route.name, "method"));
      }
      if options.compatibilityDate.Some? && !IsValidCompatibilityDate(options.compatibilityDate.value) {
        return Some(SetupFailure(route.name, "compatibility date"));
      }
      routes := routes + [route];
      ready := false;
      return None;
    }

    /** `find`: the first route in list order that qualifies. */
    method Find(q: Query) returns (r: Option<Route>)
      ensures r == Lookup(routes, q, rules)
    {
      var i := 0;
      while i < |routes|
        invariant 0 <= i <= |routes|
        invariant forall j | 0 <= j < i :: !Qualifies(routes[j], q, rules)
      {
        var route := routes[i];
        if rules.pathnamesMatch(q.pathname, route.pathname) && MethodsMatch(q.httpMethod, route.httpMethod) {
          if q.ignoreCompatibilityDate {
            return Some(route);
          }
          if DatesMatch(q.compatibilityDate, route.compatibilityDate) {
            return Some(route);
          }
        }
        i := i + 1;
      }
      return None;
    }

    /** `init`: nothing when ready; otherwise sorts the routes with the
      comparator (a stable insertion sort) and becomes ready. */
    method Init()
      requires Valid()
      modifies this
      ensures Valid() && ready
      ensures old(ready) ==> routes == old(routes)
      ensures multiset(routes) == multiset(old(routes))
      ensures SameSlots(old(routes), routes)
      ensures AdjacentSorted(routes)
    {
      if ready {
        return;
      }
      CompareFlippable(routes);
      routes := Sort(routes, Compare);
      forall k | 0 < k < |routes| ensures Compare(routes[k - 1], routes[k]) <= 0 {
        assert Ordered(Compare, routes, k);
      }
      ready := true;
    }
  }
}
