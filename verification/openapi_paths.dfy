/** `buildPaths` in `packages/openapi-generator/scripts/worker/paths.ts`:
    the registered routes become an OpenAPI paths object. ALL routes are
    expanded into one route per method, routes are grouped by pathname and
    method, one route is selected per group, and the result is keyed by the
    pathname (with a leading `/`) and the lower-case method. The operation
    object of a route is left to code outside this model, so the route itself
    stands for it. */
module OpenApiPaths {
  import opened Wrappers
  import opened Utils
  import opened Text
  import opened Objects
  import opened Routing

  // ---------- dates ----------

  /** A JavaScript `Date` made from a compatibility date: a day (`Utils.DayOf`),
      or an invalid date for text that is not a `YYYY-MM-DD` date. */
  datatype Instant = Day(n: nat) | InvalidDate

  /** `new Date(s)`. */
  function ToDate(s: string): Instant {
    match DayOf(s)
    case Some(n) => Day(n)
    case None => InvalidDate
  }

  /** `a > b` on dates: false whenever either is invalid. */
  predicate Later(a: Instant, b: Instant) {
    a.Day? && b.Day? && a.n > b.n
  }

  /** The target date: today's date for `today`, else the target text as a date. */
  function TargetDate(target: string, today: nat): Instant {
    if target == "today" then Day(today) else ToDate(target)
  }

  /** A route date as `compareDatesBeforeToday` sees it: absent, or a date
      after the target, counts as absent. */
  function Kept(input: Option<string>, target: Instant): (d: Option<Instant>)
    ensures d.Some? ==> !Later(d.value, target)
  {
    if input.None? || Later(ToDate(input.value), target) then None else Some(ToDate(input.value))
  }

  /** `compareDatesBeforeToday`: the later of two dates once dates after the
      target are dropped; absent when neither remains. */
  method CompareDatesBeforeToday(input1: Option<string>, input2: Option<string>, target: Instant)
    returns (r: Option<Instant>)
    ensures r.None? <==> Kept(input1, target).None? && Kept(input2, target).None?
    ensures r.Some? ==> r == Kept(input1, target) || r == Kept(input2, target)
    ensures r.Some? ==> !Later(r.value, target)
    ensures Kept(input1, target).None? ==> r == Kept(input2, target)
    ensures Kept(input2, target).None? ==> r == Kept(input1, target)
    ensures r.Some? && r.value.Day? ==>
      && (Kept(input1, target).Some? && Kept(input1, target).value.Day? ==> Kept(input1, target).value.n <= r.value.n)
      && (Kept(input2, target).Some? && Kept(input2, target).value.Day? ==> Kept(input2, target).value.n <= r.value.n)
  {
    var date1 := if input1.None? then None else Some(ToDate(input1.value));
    var date2 := if input2.None? then None else Some(ToDate(input2.value));
    if date1.Some? {
      date1 := if Later(date1.value, target) then None else date1;
    }
    if date2.Some? {
      date2 := if Later(date2.value, target) then None else date2;
    }
    if date1.None? && date2.None? {
      return None;
    } else if date1.None? || date2.None? {
      return if date1.None? then date2 else date1;
    }
    return if Later(date1.value, date2.value) then date1 else date2;
  }

  // ---------- expanding ALL ----------

  /** One route: an ALL route becomes one copy per method of the list, with
      only the method changed; any other route stays as it is. */
  function ExpandRoute(r: Route): (rs: seq<Route>)
    ensures r.httpMethod == All ==>
      && |rs| == |Methods|
      && forall i | 0 <= i < |rs| :: rs[i].httpMethod == Methods[i] && rs[i].(httpMethod := All) == r
    ensures r.httpMethod != All ==> rs == [r]
  {
    if r.httpMethod == All then seq(|Methods|, i requires 0 <= i < |Methods| => r.(httpMethod := Methods[i]))
    else [r]
  }

  /** `routes.flatMap(...)`. */
  function Expand(routes: seq<Route>): seq<Route> {
    if routes == [] then [] else ExpandRoute(routes[0]) + Expand(routes[1..])
  }

  /** After expansion no route is an ALL route, every route is an input route
      with at most its method changed, and every non-ALL input route is kept. */
  lemma ExpandSound(routes: seq<Route>)
    ensures forall r | r in Expand(routes) :: r.httpMethod != All
    ensures forall r | r in Expand(routes) :: exists q | q in routes :: r.(httpMethod := q.httpMethod) == q
    ensures forall q | q in routes && q.httpMethod != All :: q in Expand(routes)
  {
    forall r | r in Expand(routes)
      ensures r.httpMethod != All
      ensures exists q | q in routes :: r.(httpMethod := q.httpMethod) == q
    {
      var q := ExpandSource(routes, r);
    }
    forall q | q in routes && q.httpMethod != All ensures q in Expand(routes) {
      ExpandKeeps(routes, q);
    }
  }

  /** The input route an expanded route comes from. */
  lemma {:induction false} ExpandSource(routes: seq<Route>, r: Route) returns (q: Route)
    requires r in Expand(routes)
    ensures q in routes && r.(httpMethod := q.httpMethod) == q && r.httpMethod != All
    decreases |routes|
  {
    var head := ExpandRoute(routes[0]);
    assert Expand(routes) == head + Expand(routes[1..]);
    if r in head {
      q := routes[0];
      var i :| 0 <= i < |head| && head[i] == r;
      if q.httpMethod == All {
        assert r.httpMethod == Methods[i];
      }
    } else {
      q := ExpandSource(routes[1..], r);
    }
  }

  /** A route that is not an ALL route survives the expansion. */
  lemma {:induction false} ExpandKeeps(routes: seq<Route>, q: Route)
    requires q in routes && q.httpMethod != All
    ensures q in Expand(routes)
    decreases |routes|
  {
    assert Expand(routes) == ExpandRoute(routes[0]) + Expand(routes[1..]);
    if q == routes[0] {
      assert ExpandRoute(q) == [q];
    } else {
      ExpandKeeps(routes[1..], q);
    }
  }

  /** An ALL route is expanded into every method of the list. */
  lemma {:induction false} ExpandCoversAll(routes: seq<Route>, q: Route, m: string)
    requires q in routes && q.httpMethod == All && m in Methods
    ensures q.(httpMethod := m) in Expand(routes)
    decreases |routes|
  {
    if q == routes[0] {
      var i :| 0 <= i < |Methods| && Methods[i] == m;
      assert ExpandRoute(q)[i] == q.(httpMethod := m);
    } else {
      assert q in routes[1..];
      ExpandCoversAll(routes[1..], q, m);
    }
  }

  // ---------- grouping ----------

  /** The routes of `rs` with pathname `p` and method `m`, in their order. */
  function Matching(rs: seq<Route>, p: string, m: string): (g: seq<Route>)
    ensures forall r | r in g :: r in rs && r.pathname == p && r.httpMethod == m
  {
    if rs == [] then []
    else
      var last := rs[|rs| - 1];
      Matching(rs[..|rs| - 1], p, m) + (if last.pathname == p && last.httpMethod == m then [last] else [])
  }

  /** The routes of `rs` with pathname `p`. */
  function OnPath(rs: seq<Route>, p: string): seq<Route> {
    if rs == [] then []
    else
      var last := rs[|rs| - 1];
      OnPath(rs[..|rs| - 1], p) + (if last.pathname == p then [last] else [])
  }

  /** The groups object: pathname, then method, then the routes in order. */
  type Groups = Dict<Dict<seq<Route>>>

  /** Every level lists its keys once. */
  ghost predicate GroupsWellFormed(groups: Groups) {
    WellFormed(groups) && forall p | p in groups.entries :: WellFormed(groups.entries[p])
  }

  /** The groups of the routes `rs`: a pathname is present when a route has
      it, a method under it when a route has both, and each group lists
      exactly the routes of that pathname and method, in their order. */
  ghost predicate GroupsMatch(groups: Groups, rs: seq<Route>) {
    && (forall p :: p in groups.entries <==> OnPath(rs, p) != [])
    && (forall p, m | p in groups.entries :: m in groups.entries[p].entries <==> Matching(rs, p, m) != [])
    && (forall p, m | p in groups.entries && m in groups.entries[p].entries ::
          groups.entries[p].entries[m] == Matching(rs, p, m))
  }

  /** A route on a pathname and method puts a route on that pathname. */
  lemma MatchingOnPath(rs: seq<Route>, p: string, m: string)
    requires Matching(rs, p, m) != []
    ensures OnPath(rs, p) != []
  {
    if rs != [] {
      var last := rs[|rs| - 1];
      if !(last.pathname == p && last.httpMethod == m) {
        MatchingOnPath(rs[..|rs| - 1], p, m);
      }
    }
  }

  /** One step of the `reduce`: the route is pushed onto the list of its
      pathname and method, creating the levels that are missing. */
  function AddToGroups(groups: Groups, r: Route): Groups {
    var inner := if r.pathname in groups.entries then groups.entries[r.pathname] else Empty();
    var list := if r.httpMethod in inner.entries then inner.entries[r.httpMethod] else [];
    Put(groups, r.pathname, Put(inner, r.httpMethod, list + [r]))
  }

  /** The groups the `reduce` builds from `rs`. */
  function GroupsFrom(rs: seq<Route>): Groups {
    if rs == [] then Empty() else AddToGroups(GroupsFrom(rs[..|rs| - 1]), rs[|rs| - 1])
  }

  lemma AddKeepsWellFormed(groups: Groups, r: Route)
    requires GroupsWellFormed(groups)
    ensures GroupsWellFormed(AddToGroups(groups, r))
  {
    var inner := if r.pathname in groups.entries then groups.entries[r.pathname] else Empty();
    assert WellFormed(inner);
  }

  /** Adding one route to the groups of `rs` gives the groups of `rs + [r]`. */
  lemma AddRoute(groups: Groups, rs: seq<Route>, r: Route)
    requires GroupsMatch(groups, rs)
    ensures GroupsMatch(AddToGroups(groups, r), rs + [r])
  {
    var rs' := rs + [r];
    assert rs'[..|rs'| - 1] == rs;
    var groups' := AddToGroups(groups, r);
    forall p ensures p in groups'.entries <==> OnPath(rs', p) != [] {
    }
    forall p, m | p in groups'.entries
      ensures m in groups'.entries[p].entries <==> Matching(rs', p, m) != []
      ensures m in groups'.entries[p].entries ==> groups'.entries[p].entries[m] == Matching(rs', p, m)
    {
      AddRouteGroup(groups, rs, r, p, m);
    }
  }

  /** One group after adding a route, from what the groups of `rs` say
      about that pathname and method. */
  lemma AddRouteGroup(groups: Groups, rs: seq<Route>, r: Route, p: string, m: string)
    requires p in groups.entries <==> OnPath(rs, p) != []
    requires p in groups.entries ==> (m in groups.entries[p].entries <==> Matching(rs, p, m) != [])
    requires p in groups.entries && m in groups.entries[p].entries ==> groups.entries[p].entries[m] == Matching(rs, p, m)
    requires p in groups.entries || p == r.pathname
    ensures var groups' := AddToGroups(groups, r);
      && (m in groups'.entries[p].entries <==> Matching(rs + [r], p, m) != [])
      && (m in groups'.entries[p].entries ==> groups'.entries[p].entries[m] == Matching(rs + [r], p, m))
  {
    if p != r.pathname {
      AddOtherPath(groups, rs, r, p, m);
    } else {
      var rs' := rs + [r];
      assert rs'[..|rs'| - 1] == rs;
      if p !in groups.entries && Matching(rs, p, m) != [] {
        MatchingOnPath(rs, p, m);
      }
      assert Matching(rs', p, m) == Matching(rs, p, m) + if m == r.httpMethod then [r] else [];
      AddSamePath(groups, rs, r, m);
    }
  }

  /** A group of another pathname is left as it was. */
  lemma AddOtherPath(groups: Groups, rs: seq<Route>, r: Route, p: string, m: string)
    requires p in groups.entries && p != r.pathname
    ensures p in AddToGroups(groups, r).entries
    ensures AddToGroups(groups, r).entries[p] == groups.entries[p]
    ensures Matching(rs + [r], p, m) == Matching(rs, p, m)
  {
    var rs' := rs + [r];
    assert rs'[..|rs'| - 1] == rs;
  }

  /** The group of the added route's own pathname. */
  lemma AddSamePath(groups: Groups, rs: seq<Route>, r: Route, m: string)
    requires r.pathname in groups.entries ==> (m in groups.entries[r.pathname].entries <==> Matching(rs, r.pathname, m) != [])
    requires r.pathname in groups.entries && m in groups.entries[r.pathname].entries ==>
      groups.entries[r.pathname].entries[m] == Matching(rs, r.pathname, m)
    requires r.pathname !in groups.entries ==> Matching(rs, r.pathname, m) == []
    ensures var inner := AddToGroups(groups, r).entries[r.pathname];
      var extra := if m == r.httpMethod then [r] else [];
      && (m in inner.entries <==> Matching(rs, r.pathname, m) + extra != [])
      && (m in inner.entries ==> inner.entries[m] == Matching(rs, r.pathname, m) + extra)
  {
  }

  /** The groups built from `rs` are well formed and are the groups of `rs`. */
  lemma {:induction false} GroupsFromMatch(rs: seq<Route>)
    ensures GroupsWellFormed(GroupsFrom(rs)) && GroupsMatch(GroupsFrom(rs), rs)
  {
    if rs != [] {
      var init, last := rs[..|rs| - 1], rs[|rs| - 1];
      assert init + [last] == rs;
      var before := GroupsFrom(init);
      assert GroupsFrom(rs) == AddToGroups(before, last);
      GroupsFromMatch(init);
      AddKeepsWellFormed(before, last);
      AddRoute(before, init, last);
    }
  }

  /** The groups of one more route are the groups so far with it added. */
  lemma GroupsFromStep(rs: seq<Route>, i: nat)
    requires i < |rs|
    ensures GroupsFrom(rs[..i + 1]) == AddToGroups(GroupsFrom(rs[..i]), rs[i])
  {
    assert rs[..i + 1][..i] == rs[..i];
  }

  /** The grouping `reduce`, over the routes in order. */
  method GroupRoutes(rs: seq<Route>) returns (groups: Groups)
    ensures groups == GroupsFrom(rs)
    ensures GroupsWellFormed(groups) && GroupsMatch(groups, rs)
  {
    groups := Empty();
    var i := 0;
    while i < |rs|
      invariant 0 <= i <= |rs|
      invariant groups == GroupsFrom(rs[..i])
    {
      var r := rs[i];
      var inner := if r.pathname in groups.entries then groups.entries[r.pathname] else Empty();
      var list := if r.httpMethod in inner.entries then inner.entries[r.httpMethod] else [];
      GroupsFromStep(rs, i);
      groups := Put(groups, r.pathname, Put(inner, r.httpMethod, list + [r]));
      i := i + 1;
    }
    assert rs[..i] == rs;
    GroupsFromMatch(rs);
  }

  // ---------- selecting one route per group ----------

  /** Whether the loop replaces the route it holds by the next one. The
      comparison `comparedDate === object.compatibilityDate` puts a `Date`
      or `undefined` against a string or `undefined`: it holds only when
      both are `undefined`, that is when neither date is kept and the next
      route has no date. */
  predicate Replaces(current: Route, next: Route, target: Instant) {
    Kept(current.compatibilityDate, target).None? && Kept(next.compatibilityDate, target).None?
    && next.compatibilityDate.None?
  }

  /** The route the loop holds after visiting `rest`, starting from `current`. */
  function Pick(current: Route, rest: seq<Route>, target: Instant): Route
    decreases |rest|
  {
    if rest == [] then current
    else Pick(if Replaces(current, rest[0], target) then rest[0] else current, rest[1..], target)
  }

  /** The route selected for a group, as written. */
  function Selected(group: seq<Route>, target: Instant): Option<Route> {
    if group == [] then None else Some(Pick(group[0], group[1..], target))
  }

  /** The selection for one group: the single route of a one-route group,
      and the loop over a larger group. */
  method SelectRoute(group: seq<Route>, target: Instant) returns (r: Option<Route>)
    ensures r == Selected(group, target)
  {
    if |group| > 1 {
      var current := group[0];
      var j := 1;
      while j < |group|
        invariant 1 <= j <= |group|
        invariant Pick(current, group[j..], target) == Pick(group[0], group[1..], target)
      {
        var next := group[j];
        var compared := CompareDatesBeforeToday(current.compatibilityDate, next.compatibilityDate, target);
        assert group[j..][1..] == group[j + 1..];
        if compared.None? && next.compatibilityDate.None? {
          current := next;
        }
        j := j + 1;
      }
      return Some(current);
    } else if |group| == 1 {
      return Some(group[0]);
    }
    return None;
  }

  /** The held route is the start or one of the visited routes, and it
      changes only to a route without a date. */
  lemma {:induction false} PickFrom(current: Route, rest: seq<Route>, target: Instant)
    ensures Pick(current, rest, target) == current
      || (Pick(current, rest, target) in rest && Pick(current, rest, target).compatibilityDate.None?)
    decreases |rest|
  {
    if rest != [] {
      var next := if Replaces(current, rest[0], target) then rest[0] else current;
      PickFrom(next, rest[1..], target);
    }
  }

  /** A held route whose date is kept is never replaced. */
  lemma {:induction false} PickKeepsDated(current: Route, rest: seq<Route>, target: Instant)
    requires Kept(current.compatibilityDate, target).Some?
    ensures Pick(current, rest, target) == current
    decreases |rest|
  {
    if rest != [] {
      PickKeepsDated(current, rest[1..], target);
    }
  }

  /** Routes with dates never replace the held route. */
  lemma {:induction false} PickKeepsWhenAllDated(current: Route, rest: seq<Route>, target: Instant)
    requires forall r | r in rest :: r.compatibilityDate.Some?
    ensures Pick(current, rest, target) == current
    decreases |rest|
  {
    if rest != [] {
      assert rest[0] in rest;
      PickKeepsWhenAllDated(current, rest[1..], target);
    }
  }

  /** A one-route group selects its route; any other non-empty group selects
      one of its own routes, which is the first or a route without a date. */
  lemma SelectedFromGroup(group: seq<Route>, target: Instant)
    ensures Selected(group, target).None? <==> group == []
    ensures |group| == 1 ==> Selected(group, target) == Some(group[0])
    ensures group != [] ==> Selected(group, target).value in group
    ensures group != [] ==> Selected(group, target).value == group[0] || Selected(group, target).value.compatibilityDate.None?
  {
    if group != [] {
      PickFrom(group[0], group[1..], target);
    }
  }

  /** As written, a group whose first route has a date no later than the
      target, or whose routes all have dates, selects its first route,
      whatever the dates of the others. */
  lemma SelectedFirstWhenDated(group: seq<Route>, target: Instant)
    requires group != []
    requires Kept(group[0].compatibilityDate, target).Some? || forall r | r in group :: r.compatibilityDate.Some?
    ensures Selected(group, target) == Some(group[0])
  {
    if Kept(group[0].compatibilityDate, target).Some? {
      PickKeepsDated(group[0], group[1..], target);
    } else {
      PickKeepsWhenAllDated(group[0], group[1..], target);
    }
  }

  /** Two dates of 2024 on the first of a month. */
  lemma ParseExample(s: string, month: nat, n: nat)
    requires 1 <= month <= 9 && s == "2024-0" + [(month + 48) as char] + "-01" && n == 20240001 + month * 100
    ensures ParseDate(s) == Some(n)
    ensures DayOf(s) == Some(CivilDay(2024, month, 1))
  {
    assert Number(s, 0, 4) == Some(2024);
    assert Number(s, 5, 7) == Some(month);
    assert Number(s, 8, 10) == Some(1);
  }

  /** Two dated routes, both before the target: the selection keeps the
      earlier-dated first route although `compareDatesBeforeToday` names the
      second route's date as the later one. */
  lemma SelectedIgnoresLaterDate(a: Route, b: Route)
    requires a.compatibilityDate == Some("2024-01-01") && b.compatibilityDate == Some("2024-06-01")
    ensures var target := Day(CivilDay(2025, 1, 1));
      && Selected([a, b], target) == Some(a)
      && Kept(b.compatibilityDate, target) == Some(Day(CivilDay(2024, 6, 1)))
      && Kept(a.compatibilityDate, target) == Some(Day(CivilDay(2024, 1, 1)))
  {
    var target := Day(CivilDay(2025, 1, 1));
    ParseExample("2024-01-01", 1, 20240101);
    ParseExample("2024-06-01", 6, 20240601);
    CivilDayOrder(2024, 1, 1, 2025, 1, 1);
    CivilDayOrder(2024, 6, 1, 2025, 1, 1);
    assert !Later(ToDate("2024-01-01"), target) && !Later(ToDate("2024-06-01"), target);
    SelectedFirstWhenDated([a, b], target);
  }

  /** The routes found for one pathname: the selection of each method group,
      in the order of the method keys. */
  function Found(methods: Dict<seq<Route>>, keys: seq<string>, target: Instant): seq<Route>
    requires forall k | k in keys :: k in methods.entries
  {
    if keys == [] then []
    else
      var last := keys[|keys| - 1];
      var picked := Selected(methods.entries[last], target);
      Found(methods, keys[..|keys| - 1], target) + (if picked.Some? then [picked.value] else [])
  }

  /** With no empty group, each method group contributes exactly one route,
      in key order, and that route belongs to the group. */
  lemma {:induction false} FoundOnePerGroup(methods: Dict<seq<Route>>, keys: seq<string>, target: Instant)
    requires forall k | k in keys :: k in methods.entries && methods.entries[k] != []
    ensures |Found(methods, keys, target)| == |keys|
    ensures forall j | 0 <= j < |keys| ::
      Some(Found(methods, keys, target)[j]) == Selected(methods.entries[keys[j]], target)
      && Found(methods, keys, target)[j] in methods.entries[keys[j]]
  {
    if keys != [] {
      var init := keys[..|keys| - 1];
      FoundOnePerGroup(methods, init, target);
      SelectedFromGroup(methods.entries[keys[|keys| - 1]], target);
      forall j | 0 <= j < |keys|
        ensures Some(Found(methods, keys, target)[j]) == Selected(methods.entries[keys[j]], target)
        ensures Found(methods, keys, target)[j] in methods.entries[keys[j]]
      {
        if j < |init| {
          assert keys[j] == init[j];
          SelectedFromGroup(methods.entries[keys[j]], target);
        }
      }
    }
  }

  /** The routes selected for one pathname, method group by method group. */
  method SelectPath(methods: Dict<seq<Route>>, target: Instant) returns (found: seq<Route>)
    requires WellFormed(methods)
    ensures found == Found(methods, methods.keys, target)
  {
    found := [];
    var j := 0;
    while j < |methods.keys|
      invariant 0 <= j <= |methods.keys|
      invariant found == Found(methods, methods.keys[..j], target)
    {
      var r := SelectRoute(methods.entries[methods.keys[j]], target);
      assert methods.keys[..j + 1][..j] == methods.keys[..j];
      if r.Some? {
        found := found + [r.value];
      }
      j := j + 1;
    }
    assert methods.keys[..j] == methods.keys;
  }

  /** The selection loop: for each pathname, in key order, the routes
      selected from its method groups, in key order. */
  method SelectAll(groups: Groups, target: Instant) returns (ungrouped: Dict<seq<Route>>)
    requires GroupsWellFormed(groups)
    ensures WellFormed(ungrouped) && ungrouped.keys == groups.keys
    ensures forall p | p in groups.entries ::
      ungrouped.entries[p] == Found(groups.entries[p], groups.entries[p].keys, target)
  {
    ungrouped := Empty();
    var i := 0;
    while i < |groups.keys|
      invariant 0 <= i <= |groups.keys|
      invariant WellFormed(ungrouped) && ungrouped.keys == groups.keys[..i]
      invariant forall p | p in ungrouped.entries ::
        p in groups.entries && ungrouped.entries[p] == Found(groups.entries[p], groups.entries[p].keys, target)
    {
      var p := groups.keys[i];
      var found := SelectPath(groups.entries[p], target);
      assert p !in groups.keys[..i] by {
        assert forall x | 0 <= x < i :: groups.keys[..i][x] == groups.keys[x];
      }
      assert groups.keys[..i + 1] == groups.keys[..i] + [p];
      ungrouped := Put(ungrouped, p, found);
      i := i + 1;
    }
    assert groups.keys[..i] == groups.keys;
  }

  // ---------- the paths object ----------

  /** A path key with a leading `/`, prepended when missing. */
  function PathKey(pathname: string): (k: string)
    ensures StartsWith(k, "/")
    ensures StartsWith(pathname, "/") ==> k == pathname
    ensures !StartsWith(pathname, "/") ==> k == "/" + pathname
  {
    if StartsWith(pathname, "/") then pathname else "/" + pathname
  }

  /** The operations of one path: lower-case method to the route. */
  function Operations(routes: seq<Route>): (es: seq<(string, Route)>)
    ensures |es| == |routes|
    ensures forall j | 0 <= j < |es| :: es[j] == (ToLower(routes[j].httpMethod), routes[j])
  {
    seq(|routes|, j requires 0 <= j < |routes| => (ToLower(routes[j].httpMethod), routes[j]))
  }

  /** The entries of the paths object, in the order of the pathnames. */
  function PathEntries(ungrouped: Dict<seq<Route>>): (es: seq<(string, Dict<Route>)>)
    requires WellFormed(ungrouped)
    ensures |es| == |ungrouped.keys|
    ensures forall j | 0 <= j < |es| ::
      es[j] == (PathKey(ungrouped.keys[j]), FromEntries(Operations(ungrouped.entries[ungrouped.keys[j]])))
  {
    seq(|ungrouped.keys|, j requires 0 <= j < |ungrouped.keys| =>
      (PathKey(ungrouped.keys[j]), FromEntries(Operations(ungrouped.entries[ungrouped.keys[j]]))))
  }

  /** Every key of the paths object starts with `/`, and every operation key
      is in lower case. */
  lemma PathsShape(ungrouped: Dict<seq<Route>>)
    requires WellFormed(ungrouped)
    ensures var paths := FromEntries(PathEntries(ungrouped));
      && (forall k | k in paths.entries :: StartsWith(k, "/"))
      && (forall k, op | k in paths.entries && op in paths.entries[k].entries :: IsLowerCase(op))
  {
    var paths := FromEntries(PathEntries(ungrouped));
    forall k | k in paths.entries ensures StartsWith(k, "/") {
      PathKeyStarts(ungrouped, k);
    }
    forall k, op | k in paths.entries && op in paths.entries[k].entries ensures IsLowerCase(op) {
      OperationKeyLower(ungrouped, k, op);
    }
  }

  /** One key of the paths object starts with `/`. */
  lemma PathKeyStarts(ungrouped: Dict<seq<Route>>, k: string)
    requires WellFormed(ungrouped)
    requires k in FromEntries(PathEntries(ungrouped)).entries
    ensures StartsWith(k, "/")
  {
    var es := PathEntries(ungrouped);
    PathValueFrom(es, k);
    var i :| 0 <= i < |es| && es[i].0 == k;
  }

  /** One operation key of the paths object is in lower case. */
  lemma OperationKeyLower(ungrouped: Dict<seq<Route>>, k: string, op: string)
    requires WellFormed(ungrouped)
    requires k in FromEntries(PathEntries(ungrouped)).entries
    requires op in FromEntries(PathEntries(ungrouped)).entries[k].entries
    ensures IsLowerCase(op)
  {
    var es := PathEntries(ungrouped);
    PathValueFrom(es, k);
    var i :| 0 <= i < |es| && es[i].0 == k && FromEntries(es).entries[k] == es[i].1;
    var ops := Operations(ungrouped.entries[ungrouped.keys[i]]);
    assert es[i].1 == FromEntries(ops);
    PathValueFrom(ops, op);
    var x :| 0 <= x < |ops| && ops[x].0 == op;
  }

  /** The value of a key of `Object.fromEntries` comes from one of its entries. */
  lemma {:induction false} PathValueFrom<V>(es: seq<(string, V)>, k: string)
    requires k in FromEntries(es).entries
    ensures exists i :: 0 <= i < |es| && es[i].0 == k && FromEntries(es).entries[k] == es[i].1
  {
    var last := |es| - 1;
    if es[last].0 == k {
      assert FromEntries(es).entries[k] == es[last].1;
    } else {
      var prefix := es[..last];
      PathValueFrom(prefix, k);
      var i :| 0 <= i < |prefix| && prefix[i].0 == k && FromEntries(prefix).entries[k] == prefix[i].1;
      assert es[i] == prefix[i];
    }
  }

  /** The route `r` is listed under path key `k` and operation key `op`
      because they are its own pathname and method. */
  predicate Serves(r: Route, k: string, op: string, rs: seq<Route>) {
    r in rs && PathKey(r.pathname) == k && ToLower(r.httpMethod) == op
  }

  /** The selection the loop leaves for the groups of `rs`. */
  ghost predicate SelectedFrom(ungrouped: Dict<seq<Route>>, groups: Groups, rs: seq<Route>, target: Instant) {
    && GroupsWellFormed(groups) && GroupsMatch(groups, rs)
    && WellFormed(ungrouped) && ungrouped.keys == groups.keys
    && forall p | p in groups.entries ::
         ungrouped.entries[p] == Found(groups.entries[p], groups.entries[p].keys, target)
  }

  /** An operation of the paths object is one of the routes selected for a
      pathname, under that pathname's key and its method in lower case. */
  lemma OperationSource(ungrouped: Dict<seq<Route>>, k: string, op: string) returns (p: string, x: nat)
    requires WellFormed(ungrouped)
    requires k in FromEntries(PathEntries(ungrouped)).entries
    requires op in FromEntries(PathEntries(ungrouped)).entries[k].entries
    ensures p in ungrouped.entries && x < |ungrouped.entries[p]| && PathKey(p) == k
    ensures FromEntries(PathEntries(ungrouped)).entries[k].entries[op] == ungrouped.entries[p][x]
    ensures ToLower(ungrouped.entries[p][x].httpMethod) == op
  {
    var es := PathEntries(ungrouped);
    PathValueFrom(es, k);
    var i :| 0 <= i < |es| && es[i].0 == k && FromEntries(es).entries[k] == es[i].1;
    p := ungrouped.keys[i];
    var ops := Operations(ungrouped.entries[p]);
    PathValueFrom(ops, op);
    x :| 0 <= x < |ops| && ops[x].0 == op && FromEntries(ops).entries[op] == ops[x].1;
  }

  /** A selected route belongs to its pathname's group of routes. */
  lemma SelectedSource(groups: Groups, rs: seq<Route>, target: Instant, p: string, x: nat)
    requires GroupsWellFormed(groups) && GroupsMatch(groups, rs) && p in groups.entries
    requires x < |Found(groups.entries[p], groups.entries[p].keys, target)|
    ensures Found(groups.entries[p], groups.entries[p].keys, target)[x] in rs
    ensures Found(groups.entries[p], groups.entries[p].keys, target)[x].pathname == p
  {
    var methods := groups.entries[p];
    assert forall m | m in methods.keys :: m in methods.entries && methods.entries[m] == Matching(rs, p, m);
    FoundOnePerGroup(methods, methods.keys, target);
    assert Found(methods, methods.keys, target)[x] in Matching(rs, p, methods.keys[x]);
  }

  /** One operation of the paths object is one of the routes, under its own
      pathname and method. */
  lemma OperationFrom(ungrouped: Dict<seq<Route>>, groups: Groups, rs: seq<Route>, target: Instant, k: string, op: string)
    requires SelectedFrom(ungrouped, groups, rs, target)
    requires k in FromEntries(PathEntries(ungrouped)).entries
    requires op in FromEntries(PathEntries(ungrouped)).entries[k].entries
    ensures Serves(FromEntries(PathEntries(ungrouped)).entries[k].entries[op], k, op, rs)
  {
    var p, x := OperationSource(ungrouped, k, op);
    SelectedSource(groups, rs, target, p, x);
  }

  /** Every operation of the paths object is one of the routes, listed under
      its own pathname and its own method in lower case. */
  lemma OperationsFromRoutes(ungrouped: Dict<seq<Route>>, groups: Groups, rs: seq<Route>, target: Instant)
    requires SelectedFrom(ungrouped, groups, rs, target)
    ensures var paths := FromEntries(PathEntries(ungrouped));
      forall k, op | k in paths.entries && op in paths.entries[k].entries ::
        Serves(paths.entries[k].entries[op], k, op, rs)
  {
    var paths := FromEntries(PathEntries(ungrouped));
    forall k, op | k in paths.entries && op in paths.entries[k].entries
      ensures Serves(paths.entries[k].entries[op], k, op, rs)
    {
      OperationFrom(ungrouped, groups, rs, target, k, op);
    }
  }

  /** `buildPaths(routes, targetDate)`, with today's date as a parameter. */
  method BuildPaths(routes: seq<Route>, targetDate: string, today: nat) returns (paths: Dict<Dict<Route>>)
    ensures WellFormed(paths)
    ensures forall k | k in paths.entries :: StartsWith(k, "/")
    ensures forall k, op | k in paths.entries && op in paths.entries[k].entries :: IsLowerCase(op)
    ensures forall k, op | k in paths.entries && op in paths.entries[k].entries ::
      Serves(paths.entries[k].entries[op], k, op, Expand(routes))
  {
    var target := TargetDate(targetDate, today);
    var expanded := Expand(routes);
    var groups := GroupRoutes(expanded);
    var ungrouped := SelectAll(groups, target);
    PathsShape(ungrouped);
    OperationsFromRoutes(ungrouped, groups, expanded, target);
    paths := FromEntries(PathEntries(ungrouped));
  }
}
