/** The route table of WebServer6: `Route.MatchesRequest`, `Route.CompareTo`, the scan order
    that `Routes.OrderBy(r => r)` produces, and the first-match lookup of `HandleRequestAsync`. */
module Router {
  import opened Wrappers
  import opened Text

  /** A configured route. `methods` is the configuration's `Methods` list; `"*"` admits any method. */
  datatype Route<H> = Route(path: string, methods: seq<string>, handler: H) {

    /** The path with every trailing `*` removed: the literal prefix a wildcard route matches. */
    function Stem(): string
    {
      TrimEnd(path, '*')
    }

    predicate IsWildcard()
    {
      EndsWith(path, "*")
    }

    /** `Route.MatchesRequest`: the path rule and the method rule must both hold. */
    function MatchesRequest(requestPath: string, requestMethod: string): bool
    {
      var pathMatches :=
        if path == "/" then requestPath == "/"
        else if IsWildcard() then StartsWithIgnoreCase(requestPath, Stem())
        else EqualsIgnoreCase(requestPath, path);
      pathMatches && ("*" in methods || ContainsIgnoreCase(methods, requestMethod))
    }

    /** `Route.CompareTo`: negative when this route is scanned before `other`. */
    function CompareTo(other: Route<H>): (r: int)
      ensures r == -1 || r == 0 || r == 1
      ensures r < 0 <==> MoreSpecific(this, other)
      ensures r > 0 <==> MoreSpecific(other, this)
    {
      var pathComparison := CompareInt(|other.Stem()|, |Stem()|);
      if pathComparison != 0 then pathComparison
      else if IsWildcard() && !other.IsWildcard() then 1
      else if !IsWildcard() && other.IsWildcard() then -1
      else CompareInt(|other.methods|, |methods|)
    }
  }

  /** A request matches a route exactly when its path is `/` for the route `/`, begins with the
      route's stem for a wildcard route, or equals the route's path otherwise, letters compared
      without case; and one of the route's methods is `*` or names the request's method. */
  lemma MatchesRequestMeaning<H>(route: Route<H>, requestPath: string, requestMethod: string)
    ensures route.MatchesRequest(requestPath, requestMethod) <==>
      && (if route.path == "/" then requestPath == "/"
          else if |route.path| > 0 && route.path[|route.path| - 1] == '*' then
            var stem := route.Stem();
            && |stem| <= |requestPath|
            && (forall i :: 0 <= i < |stem| ==> ToUpper(requestPath[i]) == ToUpper(stem[i]))
          else
            && |requestPath| == |route.path|
            && (forall i :: 0 <= i < |route.path| ==> ToUpper(requestPath[i]) == ToUpper(route.path[i])))
      && exists i :: 0 <= i < |route.methods| && (route.methods[i] == "*" || EqualsIgnoreCase(route.methods[i], requestMethod))
  {
  }

  /** `int.CompareTo` */
  function CompareInt(a: int, b: int): (r: int)
    ensures r == -1 || r == 0 || r == 1
    ensures r < 0 <==> a < b
    ensures r > 0 <==> a > b
  {
    if a < b then -1 else if a > b then 1 else 0
  }

  /** The intended specificity order: a longer literal prefix first; at equal length an exact
      route before a wildcard one; then the route that declares MORE methods first. */
  ghost predicate MoreSpecific<H>(a: Route<H>, b: Route<H>)
  {
    || |a.Stem()| > |b.Stem()|
    || (|a.Stem()| == |b.Stem()| && !a.IsWildcard() && b.IsWildcard())
    || (|a.Stem()| == |b.Stem()| && a.IsWildcard() == b.IsWildcard() && |a.methods| > |b.methods|)
  }

  ghost predicate Sorted<H>(s: seq<Route<H>>)
  {
    forall i, j :: 0 <= i < j < |s| ==> s[i].CompareTo(s[j]) <= 0
  }

  /** Two routes the comparator cannot tell apart. */
  ghost predicate Equivalent<H>(a: Route<H>, b: Route<H>)
  {
    a.CompareTo(b) == 0
  }

  lemma CompareToAntisymmetric<H>(a: Route<H>, b: Route<H>)
    ensures a.CompareTo(b) == -b.CompareTo(a)
  {
  }

  lemma CompareToTransitive<H>(a: Route<H>, b: Route<H>, c: Route<H>)
    requires a.CompareTo(b) <= 0 && b.CompareTo(c) <= 0
    ensures a.CompareTo(c) <= 0
  {
  }

  /** Places `r` after every element that is not strictly greater, scanning from the end: the
      step of a stable insertion sort. */
  function Insert<H>(s: seq<Route<H>>, r: Route<H>): seq<Route<H>>
  {
    if s == [] || s[|s| - 1].CompareTo(r) <= 0 then s + [r]
    else Insert(s[..|s| - 1], r) + [s[|s| - 1]]
  }

  /** `routes.OrderBy(r => r)`: LINQ's stable sort under `CompareTo`, as a stable insertion sort. */
  function OrderBy<H>(routes: seq<Route<H>>): seq<Route<H>>
  {
    if routes == [] then [] else Insert(OrderBy(routes[..|routes| - 1]), routes[|routes| - 1])
  }

  /** The routes of `s` that are equivalent to `y`, in their order in `s`. */
  ghost function ClassOf<H>(s: seq<Route<H>>, y: Route<H>): seq<Route<H>>
  {
    if s == [] then []
    else ClassOf(s[..|s| - 1], y) + (if Equivalent(s[|s| - 1], y) then [s[|s| - 1]] else [])
  }

  lemma {:induction false} InsertMultiset<H>(s: seq<Route<H>>, r: Route<H>)
    ensures multiset(Insert(s, r)) == multiset(s) + multiset{r}
  {
    if !(s == [] || s[|s| - 1].CompareTo(r) <= 0) {
      var init, last := s[..|s| - 1], s[|s| - 1];
      assert s == init + [last];
      InsertMultiset(init, r);
    }
  }

  /** Every route of `Insert(s, r)` lies at or below any upper bound of `s` and `r`. */
  lemma {:induction false} InsertBounded<H>(s: seq<Route<H>>, r: Route<H>, top: Route<H>)
    requires forall i :: 0 <= i < |s| ==> s[i].CompareTo(top) <= 0
    requires r.CompareTo(top) <= 0
    ensures forall i :: 0 <= i < |Insert(s, r)| ==> Insert(s, r)[i].CompareTo(top) <= 0
  {
    if !(s == [] || s[|s| - 1].CompareTo(r) <= 0) {
      var init := s[..|s| - 1];
      InsertBounded(init, r, top);
    }
  }

  lemma {:induction false} InsertSorted<H>(s: seq<Route<H>>, r: Route<H>)
    requires Sorted(s)
    ensures Sorted(Insert(s, r))
  {
    if s == [] || s[|s| - 1].CompareTo(r) <= 0 {
      forall i | 0 <= i < |s| ensures s[i].CompareTo(r) <= 0 {
        if i < |s| - 1 {
          CompareToTransitive(s[i], s[|s| - 1], r);
        }
      }
    } else {
      var init, last := s[..|s| - 1], s[|s| - 1];
      InsertSorted(init, r);
      InsertBounded(init, r, last);
    }
  }

  lemma {:induction false} OrderByProperties<H>(routes: seq<Route<H>>)
    ensures multiset(OrderBy(routes)) == multiset(routes)
    ensures Sorted(OrderBy(routes))
  {
    if routes != [] {
      var init := routes[..|routes| - 1];
      assert routes == init + [routes[|routes| - 1]];
      OrderByProperties(init);
      InsertMultiset(OrderBy(init), routes[|routes| - 1]);
      InsertSorted(OrderBy(init), routes[|routes| - 1]);
    }
  }

  /** Sorting an already sorted table changes nothing. */
  lemma {:induction false} OrderBySortedIsIdentity<H>(s: seq<Route<H>>)
    requires Sorted(s)
    ensures OrderBy(s) == s
  {
    if s != [] {
      var init, last := s[..|s| - 1], s[|s| - 1];
      assert Sorted(init) by {
        forall i, j | 0 <= i < j < |init|
          ensures init[i].CompareTo(init[j]) <= 0
        {
          assert init[i] == s[i] && init[j] == s[j];
        }
      }
      OrderBySortedIsIdentity(init);
      if init != [] {
        assert init[|init| - 1] == s[|s| - 2];
        assert s[|s| - 2].CompareTo(last) <= 0;
      }
      assert init + [last] == s;
    }
  }

  /** Re-sorting after each appended route yields the table one final sort would yield. */
  lemma OrderByIncremental<H>(done: seq<Route<H>>, r: Route<H>)
    ensures OrderBy(OrderBy(done) + [r]) == OrderBy(done + [r])
  {
    var sorted := OrderBy(done);
    OrderByProperties(done);
    OrderBySortedIsIdentity(sorted);
    assert (sorted + [r])[..|sorted + [r]| - 1] == sorted;
    assert (done + [r])[..|done + [r]| - 1] == done;
  }

  lemma {:induction false} ClassOfAppend<H>(s: seq<Route<H>>, x: Route<H>, y: Route<H>)
    ensures ClassOf(s + [x], y) == ClassOf(s, y) + (if Equivalent(x, y) then [x] else [])
  {
    assert (s + [x])[..|s + [x]| - 1] == s;
  }

  lemma EquivalentToSame<H>(a: Route<H>, b: Route<H>, y: Route<H>)
    ensures Equivalent(a, y) && Equivalent(b, y) ==> Equivalent(a, b)
  {
  }

  lemma {:induction false} InsertKeepsClasses<H>(s: seq<Route<H>>, r: Route<H>, y: Route<H>)
    ensures ClassOf(Insert(s, r), y) == ClassOf(s, y) + (if Equivalent(r, y) then [r] else [])
  {
    if s == [] || s[|s| - 1].CompareTo(r) <= 0 {
      ClassOfAppend(s, r, y);
    } else {
      var init, last := s[..|s| - 1], s[|s| - 1];
      assert s == init + [last];
      InsertKeepsClasses(init, r, y);
      ClassOfAppend(Insert(init, r), last, y);
      ClassOfAppend(init, last, y);
      // r and last are not equivalent, so at most one of them joins y's class
      EquivalentToSame(r, last, y);
    }
  }

  /** `OrderBy` is stable: routes the comparator cannot tell apart keep their configuration order. */
  lemma {:induction false} OrderByStable<H>(routes: seq<Route<H>>, y: Route<H>)
    ensures ClassOf(OrderBy(routes), y) == ClassOf(routes, y)
  {
    if routes != [] {
      var init, last := routes[..|routes| - 1], routes[|routes| - 1];
      OrderByStable(init, y);
      InsertKeepsClasses(OrderBy(init), last, y);
    }
  }

  /** The first route of the scan order that matches, as the loop of `HandleRequestAsync` finds it. */
  function FirstMatch<H>(routes: seq<Route<H>>, requestPath: string, requestMethod: string): (r: Option<nat>)
    ensures r.Some? ==> r.value < |routes| && routes[r.value].MatchesRequest(requestPath, requestMethod)
    ensures r.Some? ==> forall j :: 0 <= j < r.value ==> !routes[j].MatchesRequest(requestPath, requestMethod)
    ensures r.None? ==> forall j :: 0 <= j < |routes| ==> !routes[j].MatchesRequest(requestPath, requestMethod)
  {
    if routes == [] then None
    else if routes[0].MatchesRequest(requestPath, requestMethod) then Some(0)
    else match FirstMatch(routes[1..], requestPath, requestMethod)
      case None => None
      case Some(i) => Some(i + 1)
  }

  /** In a sorted table the first matching route is one no other matching route is more specific than. */
  lemma FirstMatchIsMostSpecific<H>(routes: seq<Route<H>>, requestPath: string, requestMethod: string)
    requires Sorted(routes)
    requires FirstMatch(routes, requestPath, requestMethod).Some?
    ensures var i := FirstMatch(routes, requestPath, requestMethod).value;
      forall j :: 0 <= j < |routes| && routes[j].MatchesRequest(requestPath, requestMethod) ==>
        !MoreSpecific(routes[j], routes[i])
  {
    var i := FirstMatch(routes, requestPath, requestMethod).value;
    forall j | 0 <= j < |routes| && routes[j].MatchesRequest(requestPath, requestMethod)
      ensures !MoreSpecific(routes[j], routes[i])
    {
      assert i <= j;
      if i < j {
        assert routes[i].CompareTo(routes[j]) <= 0;
      }
    }
  }

  /** An exact route and a wildcard route whose stem is no longer than the exact path: whatever
      their configuration order, the exact route is scanned first, so a request it matches reaches it. */
  lemma ExactRouteBeatsWildcard<H>(exact: Route<H>, wild: Route<H>, requestPath: string, requestMethod: string)
    requires !exact.IsWildcard() && wild.IsWildcard() && |wild.Stem()| <= |exact.Stem()|
    requires exact.MatchesRequest(requestPath, requestMethod)
    ensures OrderBy([wild, exact]) == OrderBy([exact, wild]) == [exact, wild]
    ensures FirstMatch(OrderBy([wild, exact]), requestPath, requestMethod) == Some(0)
  {
    assert exact.CompareTo(wild) == -1 && wild.CompareTo(exact) == 1;
    assert OrderBy([wild]) == [wild] by { assert [wild][..0] == []; }
    assert OrderBy([exact]) == [exact] by { assert [exact][..0] == []; }
    assert OrderBy([wild, exact]) == [exact, wild] by {
      assert [wild, exact][..1] == [wild];
      assert Insert([wild], exact) == Insert([], exact) + [wild];
    }
    assert OrderBy([exact, wild]) == [exact, wild] by {
      assert [exact, wild][..1] == [exact];
    }
  }
}
