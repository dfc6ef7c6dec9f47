/** WebServer6: a configurable server. `ServerConfig.InitializeHandlersAndModules` loads the
    route handlers and the middleware named in `config.json`; `HandleRequestAsync` runs the
    middleware in order and hands the request to the first route that matches it. */
module WebServer6 {
  import opened Wrappers
  import opened Files
  import opened FileCaching
  import opened Settings
  import opened Middleware
  import opened Router
  import opened Plugins

  // ---------------------------------------------------------------- loading

  /** The routes of the entries that load, in configuration order, each with what its handler
      holds. */
  function LoadedRoutes(configs: seq<RouteConfig>, assemblies: Assemblies, disk: Disk): seq<Route<HandlerView>>
  {
    if configs == [] then []
    else
      var config := configs[|configs| - 1];
      var earlier := LoadedRoutes(configs[..|configs| - 1], assemblies, disk);
      match LoadHandler(config, assemblies, disk)
      case Success(view) => earlier + [Route(config.path, config.methods, view)]
      case Failure(_) => earlier
  }

  /** The middleware of the entries that load, in configuration order. */
  function LoadedMiddleware(configs: seq<MiddlewareConfig>, assemblies: Assemblies): seq<MiddlewareView>
  {
    if configs == [] then []
    else
      var earlier := LoadedMiddleware(configs[..|configs| - 1], assemblies);
      match LoadMiddleware(configs[|configs| - 1], assemblies)
      case Success(view) => earlier + [view]
      case Failure(_) => earlier
  }

  function HandlerObjects(routes: seq<Route<Handler>>): set<object>
  {
    if routes == [] then {} else HandlerObjects(routes[..|routes| - 1]) + routes[|routes| - 1].handler.Objects()
  }

  function ViewOf(route: Route<Handler>): Route<HandlerView>
    reads route.handler.Objects()
  {
    Route(route.path, route.methods, route.handler.View())
  }

  /** The route table with each handler replaced by what it holds. */
  function RouteViews(routes: seq<Route<Handler>>): seq<Route<HandlerView>>
    reads HandlerObjects(routes)
  {
    if routes == [] then [] else RouteViews(routes[..|routes| - 1]) + [ViewOf(routes[|routes| - 1])]
  }

  function MiddlewareObjects(middleware: seq<MiddlewareInstance>): set<object>
  {
    if middleware == [] then {} else MiddlewareObjects(middleware[..|middleware| - 1]) + middleware[|middleware| - 1].Objects()
  }

  function MiddlewareViews(middleware: seq<MiddlewareInstance>): seq<MiddlewareView>
    reads MiddlewareObjects(middleware)
  {
    if middleware == [] then [] else MiddlewareViews(middleware[..|middleware| - 1]) + [middleware[|middleware| - 1].View()]
  }

  lemma {:induction false} HandlerObjectsMembers(routes: seq<Route<Handler>>, o: object)
    ensures o in HandlerObjects(routes) <==> exists route :: route in routes && o in route.handler.Objects()
  {
    if routes != [] {
      var init, last := routes[..|routes| - 1], routes[|routes| - 1];
      HandlerObjectsMembers(init, o);
      assert routes == init + [last];
    }
  }

  lemma {:induction false} MiddlewareObjectsMembers(middleware: seq<MiddlewareInstance>, o: object)
    ensures o in MiddlewareObjects(middleware) <==> exists m :: m in middleware && o in m.Objects()
  {
    if middleware != [] {
      var init, last := middleware[..|middleware| - 1], middleware[|middleware| - 1];
      MiddlewareObjectsMembers(init, o);
      assert middleware == init + [last];
    }
  }

  lemma RouteViewsAppend(routes: seq<Route<Handler>>, route: Route<Handler>)
    ensures RouteViews(routes + [route]) == RouteViews(routes) + [ViewOf(route)]
  {
    assert (routes + [route])[..|routes|] == routes;
  }

  lemma {:induction false} RouteViewsInsert(routes: seq<Route<Handler>>, route: Route<Handler>)
    ensures RouteViews(Insert(routes, route)) == Insert(RouteViews(routes), ViewOf(route))
  {
    if routes == [] {
      RouteViewsAppend(routes, route);
    } else {
      var init, last := routes[..|routes| - 1], routes[|routes| - 1];
      var views := RouteViews(routes);
      assert views[..|views| - 1] == RouteViews(init) && views[|views| - 1] == ViewOf(last);
      ViewCompare(last, route);
      if last.CompareTo(route) <= 0 {
        assert Insert(views, ViewOf(route)) == views + [ViewOf(route)];
        RouteViewsAppend(routes, route);
      } else {
        assert Insert(views, ViewOf(route)) == Insert(RouteViews(init), ViewOf(route)) + [ViewOf(last)];
        assert Insert(routes, route) == Insert(init, route) + [last];
        RouteViewsInsert(init, route);
        RouteViewsAppend(Insert(init, route), last);
      }
    }
  }

  /** The comparator sees only paths and method lists, which reading a handler keeps. */
  lemma ViewCompare(x: Route<Handler>, y: Route<Handler>)
    ensures ViewOf(x).CompareTo(ViewOf(y)) == x.CompareTo(y)
  {
    assert ViewOf(x).Stem() == x.Stem() && ViewOf(y).Stem() == y.Stem();
  }

  /** Sorting the table and reading what its handlers hold can be done in either order: the
      comparator looks only at paths and method lists. */
  lemma {:induction false} RouteViewsOrderBy(routes: seq<Route<Handler>>)
    ensures RouteViews(OrderBy(routes)) == OrderBy(RouteViews(routes))
  {
    if routes != [] {
      var init, last := routes[..|routes| - 1], routes[|routes| - 1];
      var views := RouteViews(routes);
      assert views[..|views| - 1] == RouteViews(init);
      RouteViewsOrderBy(init);
      RouteViewsInsert(OrderBy(init), last);
    }
  }

  /** Sorting a sorted table again changes nothing. */
  lemma OrderByTwice<H>(routes: seq<Route<H>>)
    ensures OrderBy(OrderBy(routes)) == OrderBy(routes)
  {
    OrderByProperties(routes);
    OrderBySortedIsIdentity(OrderBy(routes));
  }

  lemma LoadedRoutesStep(configs: seq<RouteConfig>, i: nat, assemblies: Assemblies, disk: Disk, loaded: Result<HandlerView, Exception>)
    requires i < |configs| && loaded == LoadHandler(configs[i], assemblies, disk)
    ensures LoadedRoutes(configs[..i + 1], assemblies, disk) == WithEntry(LoadedRoutes(configs[..i], assemblies, disk), configs[i], loaded)
  {
    assert configs[..i + 1][..i] == configs[..i];
  }

  lemma LoadedMiddlewareStep(configs: seq<MiddlewareConfig>, i: nat, assemblies: Assemblies, loaded: Result<MiddlewareView, Exception>)
    requires i < |configs| && loaded == LoadMiddleware(configs[i], assemblies)
    ensures LoadedMiddleware(configs[..i + 1], assemblies) ==
      if loaded.Success? then LoadedMiddleware(configs[..i], assemblies) + [loaded.value]
      else LoadedMiddleware(configs[..i], assemblies)
  {
    assert configs[..i + 1][..i] == configs[..i];
  }

  class ServerConfig {
    const routeConfigs: seq<RouteConfig>
    const middlewareConfigs: seq<MiddlewareConfig>
    var routes: seq<Route<Handler>>
    var middleware: seq<MiddlewareInstance>
    /** `StaticFilesHandler`'s static `MemoryCache`, which every static-files route shares. */
    const staticFileCache: FileCache

    constructor(routeConfigs: seq<RouteConfig>, middlewareConfigs: seq<MiddlewareConfig>)
      ensures this.routeConfigs == routeConfigs && this.middlewareConfigs == middlewareConfigs
      ensures routes == [] && middleware == [] && fresh(staticFileCache) && staticFileCache.entries == map[]
    {
      this.routeConfigs := routeConfigs;
      this.middlewareConfigs := middlewareConfigs;
      routes := [];
      middleware := [];
      staticFileCache := new FileCache();
    }

    /** Loads the route entries, then the middleware entries; an entry that throws is skipped. */
    method InitializeHandlersAndModules(assemblies: Assemblies, disk: Disk)
      modifies this
      ensures RouteViews(routes) == OrderBy(LoadedRoutes(routeConfigs, assemblies, disk))
      ensures MiddlewareViews(middleware) == LoadedMiddleware(middlewareConfigs, assemblies)
      ensures fresh(HandlerObjects(routes)) && fresh(MiddlewareObjects(middleware))
      ensures SharesCache(routes, staticFileCache)
    {
      InitializeRoutes(assemblies, disk);
      InitializeMiddleware(assemblies);
    }

    /** The route half of `InitializeHandlersAndModules`. */
    method InitializeRoutes(assemblies: Assemblies, disk: Disk)
      modifies this
      ensures RouteViews(routes) == OrderBy(LoadedRoutes(routeConfigs, assemblies, disk))
      ensures fresh(HandlerObjects(routes)) && allocated(HandlerObjects(routes)) && SharesCache(routes, staticFileCache)
      ensures middleware == old(middleware)
    {
      var table, footprint := LoadRoutes(routeConfigs, assemblies, disk, staticFileCache);
      routes := table;
    }

    /** The middleware half of `InitializeHandlersAndModules`. */
    method InitializeMiddleware(assemblies: Assemblies)
      modifies this
      ensures MiddlewareViews(middleware) == LoadedMiddleware(middlewareConfigs, assemblies)
      ensures fresh(MiddlewareObjects(middleware))
      ensures routes == old(routes)
    {
      var chain, footprint := LoadMiddlewareChain(middlewareConfigs, assemblies);
      middleware := chain;
    }
  }

  /** Every static-files handler in the table uses the given cache. */
  predicate SharesCache(table: seq<Route<Handler>>, cache: FileCache)
  {
    forall k :: 0 <= k < |table| && table[k].handler.StaticFiles? ==> table[k].handler.staticFiles.fileCache == cache
  }

  /** The route table after one more entry: `prior` with the entry's route when it loads. */
  function WithEntry(prior: seq<Route<HandlerView>>, config: RouteConfig, loaded: Result<HandlerView, Exception>): seq<Route<HandlerView>>
  {
    if loaded.Success? then prior + [Route(config.path, config.methods, loaded.value)] else prior
  }

  /** The route loop of `InitializeHandlersAndModules`: loads every entry in turn, skipping the
      ones that throw and re-sorting the table after each entry. */
  method LoadRoutes(configs: seq<RouteConfig>, assemblies: Assemblies, disk: Disk, staticFileCache: FileCache)
    returns (table: seq<Route<Handler>>, ghost footprint: set<object>)
    ensures RouteViews(table) == OrderBy(LoadedRoutes(configs, assemblies, disk))
    ensures HandlerObjects(table) <= footprint && fresh(footprint)
    ensures SharesCache(table, staticFileCache)
  {
    table := [];
    footprint := {};
    var i := 0;
    while i < |configs|
      invariant 0 <= i <= |configs|
      invariant RouteViews(table) == OrderBy(LoadedRoutes(configs[..i], assemblies, disk))
      invariant HandlerObjects(table) <= footprint && fresh(footprint)
      invariant SharesCache(table, staticFileCache)
    {
      table, footprint := AddRoute(configs, i, assemblies, disk, staticFileCache, table, footprint);
      i := i + 1;
    }
    assert configs[..i] == configs;
  }

  /** One turn of the route loop: loads the entry's handler and, when it loads, adds the route
      and re-sorts the table. */
  method AddRoute(configs: seq<RouteConfig>, i: nat, assemblies: Assemblies, disk: Disk, staticFileCache: FileCache,
                  table: seq<Route<Handler>>, ghost footprint: set<object>)
    returns (grown: seq<Route<Handler>>, ghost grownFootprint: set<object>)
    requires i < |configs|
    requires RouteViews(table) == OrderBy(LoadedRoutes(configs[..i], assemblies, disk))
    requires HandlerObjects(table) <= footprint
    requires SharesCache(table, staticFileCache)
    ensures RouteViews(grown) == OrderBy(LoadedRoutes(configs[..i + 1], assemblies, disk))
    ensures HandlerObjects(grown) <= grownFootprint && footprint <= grownFootprint && fresh(grownFootprint - footprint)
    ensures SharesCache(grown, staticFileCache)
  {
    var loaded := LoadHandlerInstance(configs[i], assemblies, disk, staticFileCache);
    grown, grownFootprint := table, footprint;
    if loaded.Success? {
      var route := Route(configs[i].path, configs[i].methods, loaded.value);
      TableGrows(table, route, staticFileCache);
      grown := table + [route];
      grownFootprint := footprint + route.handler.Objects();
    }
    SortedStep(configs, i, assemblies, disk, RouteViews(table), RouteViews(grown));
    Resorted(grown, staticFileCache);
    grown := OrderBy(grown);
  }

  /** Sorting after each entry gives the table that sorting once at the end would give. */
  lemma SortedStep(configs: seq<RouteConfig>, i: nat, assemblies: Assemblies, disk: Disk, sorted: seq<Route<HandlerView>>, next: seq<Route<HandlerView>>)
    requires i < |configs| && sorted == OrderBy(LoadedRoutes(configs[..i], assemblies, disk))
    requires next == WithEntry(sorted, configs[i], LoadHandler(configs[i], assemblies, disk))
    ensures OrderBy(next) == OrderBy(LoadedRoutes(configs[..i + 1], assemblies, disk))
  {
    var prior := LoadedRoutes(configs[..i], assemblies, disk);
    var loaded := LoadHandler(configs[i], assemblies, disk);
    LoadedRoutesStep(configs, i, assemblies, disk, loaded);
    if loaded.Success? {
      OrderByIncremental(prior, Route(configs[i].path, configs[i].methods, loaded.value));
    } else {
      OrderByTwice(prior);
    }
  }

  /** Re-sorting the table re-sorts what its handlers hold, brings in no new handler object and
      keeps every static-files handler on the shared cache. */
  lemma Resorted(routes: seq<Route<Handler>>, cache: FileCache)
    ensures RouteViews(OrderBy(routes)) == OrderBy(RouteViews(routes))
    ensures HandlerObjects(OrderBy(routes)) <= HandlerObjects(routes)
    ensures SharesCache(routes, cache) ==> SharesCache(OrderBy(routes), cache)
  {
    RouteViewsOrderBy(routes);
    HandlerObjectsOrderBy(routes);
    if SharesCache(routes, cache) {
      var sorted := OrderBy(routes);
      OrderByKeepsMembers(routes);
      forall k | 0 <= k < |sorted| && sorted[k].handler.StaticFiles?
        ensures sorted[k].handler.staticFiles.fileCache == cache
      {
        assert sorted[k] in routes;
      }
    }
  }

  /** The middleware loop of `InitializeHandlersAndModules`: loads every entry in configuration
      order, skipping the ones that throw. */
  method LoadMiddlewareChain(configs: seq<MiddlewareConfig>, assemblies: Assemblies)
    returns (chain: seq<MiddlewareInstance>, ghost footprint: set<object>)
    ensures MiddlewareViews(chain) == LoadedMiddleware(configs, assemblies)
    ensures MiddlewareObjects(chain) == footprint && fresh(footprint)
  {
    chain := [];
    footprint := {};
    var j := 0;
    while j < |configs|
      invariant 0 <= j <= |configs|
      invariant MiddlewareViews(chain) == LoadedMiddleware(configs[..j], assemblies)
      invariant MiddlewareObjects(chain) == footprint && fresh(footprint)
    {
      chain, footprint := AddMiddleware(configs, j, assemblies, chain, footprint);
      j := j + 1;
    }
    assert configs[..j] == configs;
  }

  /** One turn of the middleware loop: loads the entry and, when it loads, appends it. */
  method AddMiddleware(configs: seq<MiddlewareConfig>, j: nat, assemblies: Assemblies,
                       chain: seq<MiddlewareInstance>, ghost footprint: set<object>)
    returns (grown: seq<MiddlewareInstance>, ghost grownFootprint: set<object>)
    requires j < |configs|
    requires MiddlewareViews(chain) == LoadedMiddleware(configs[..j], assemblies)
    requires MiddlewareObjects(chain) == footprint
    ensures MiddlewareViews(grown) == LoadedMiddleware(configs[..j + 1], assemblies)
    ensures MiddlewareObjects(grown) == grownFootprint && footprint <= grownFootprint && fresh(grownFootprint - footprint)
  {
    LoadedMiddlewareStep(configs, j, assemblies, LoadMiddleware(configs[j], assemblies));
    var loaded := LoadMiddlewareInstance(configs[j], assemblies);
    grown, grownFootprint := chain, footprint;
    if loaded.Success? {
      ChainGrows(chain, loaded.value);
      grown := chain + [loaded.value];
      grownFootprint := footprint + loaded.value.Objects();
    }
  }

  /** Appending a middleware instance adds its objects and its view. */
  lemma ChainGrows(chain: seq<MiddlewareInstance>, m: MiddlewareInstance)
    ensures MiddlewareObjects(chain + [m]) == MiddlewareObjects(chain) + m.Objects()
    ensures MiddlewareViews(chain + [m]) == MiddlewareViews(chain) + [m.View()]
  {
    assert (chain + [m])[..|chain|] == chain;
  }

  /** Appending a route adds its handler's objects and its view. */
  lemma TableGrows(table: seq<Route<Handler>>, route: Route<Handler>, cache: FileCache)
    ensures HandlerObjects(table + [route]) == HandlerObjects(table) + route.handler.Objects()
    ensures RouteViews(table + [route]) == RouteViews(table) + [ViewOf(route)]
    ensures SharesCache(table + [route], cache) <==>
      SharesCache(table, cache) && (route.handler.StaticFiles? ==> route.handler.staticFiles.fileCache == cache)
  {
    var grown := table + [route];
    assert grown[..|table|] == table && grown[|table|] == route;
    if SharesCache(grown, cache) {
      forall k | 0 <= k < |table| && table[k].handler.StaticFiles?
        ensures table[k].handler.staticFiles.fileCache == cache
      {
        assert table[k] == grown[k];
      }
    }
  }

  lemma HandlerObjectsOrderBy(routes: seq<Route<Handler>>)
    ensures HandlerObjects(OrderBy(routes)) <= HandlerObjects(routes)
  {
    OrderByKeepsMembers(routes);
    forall o | o in HandlerObjects(OrderBy(routes))
      ensures o in HandlerObjects(routes)
    {
      HandlerObjectsMembers(OrderBy(routes), o);
      HandlerObjectsMembers(routes, o);
    }
  }

  lemma OrderByKeepsMembers<H>(routes: seq<Route<H>>)
    ensures forall route :: route in OrderBy(routes) ==> route in routes
  {
    OrderByProperties(routes);
    forall route | route in OrderBy(routes)
      ensures route in routes
    {
      assert route in multiset(OrderBy(routes));
    }
  }

  /** An entry that fails to load leaves out exactly its own route: the table is what the other
      entries give. */
  lemma FailedEntryIsSkipped(configs: seq<RouteConfig>, config: RouteConfig, assemblies: Assemblies, disk: Disk)
    requires LoadHandler(config, assemblies, disk).Failure?
    ensures OrderBy(LoadedRoutes(configs + [config], assemblies, disk)) == OrderBy(LoadedRoutes(configs, assemblies, disk))
  {
    assert (configs + [config])[..|configs|] == configs;
  }

  /** The loaded middleware keep their configuration order: entries that load are never
      reordered, and one that fails drops out without disturbing the others. */
  lemma {:induction false} MiddlewareKeepOrder(configs1: seq<MiddlewareConfig>, configs2: seq<MiddlewareConfig>, assemblies: Assemblies)
    ensures LoadedMiddleware(configs1 + configs2, assemblies) == LoadedMiddleware(configs1, assemblies) + LoadedMiddleware(configs2, assemblies)
    decreases |configs2|
  {
    if configs2 == [] {
      assert configs1 + configs2 == configs1;
    } else {
      var init, last := configs2[..|configs2| - 1], configs2[|configs2| - 1];
      assert (configs1 + configs2)[..|configs1 + configs2| - 1] == configs1 + init;
      MiddlewareKeepOrder(configs1, init, assemblies);
    }
  }

  // ---------------------------------------------------------------- dispatch

  /** How `HandleRequestAsync` ended: a middleware returned `false`; the handler wrote the
      response; no route matched (404); or something threw (500). */
  datatype Ending = Refused | Responded | NotFound | InternalServerError

  /** How many middleware ran, which handler was invoked, and how the request ended. */
  datatype Dispatched<H> = Dispatched(middlewareRun: nat, invoked: Option<H>, ending: Ending)

  /** The position of the first middleware that did not let the request through. */
  function FirstStop(verdicts: seq<Verdict>): (r: Option<nat>)
    ensures r.Some? ==> r.value < |verdicts| && verdicts[r.value] != Continue
    ensures r.Some? ==> forall j :: 0 <= j < r.value ==> verdicts[j] == Continue
    ensures r.None? ==> forall j :: 0 <= j < |verdicts| ==> verdicts[j] == Continue
  {
    if verdicts == [] then None
    else if verdicts[0] != Continue then Some(0)
    else match FirstStop(verdicts[1..])
      case None => None
      case Some(i) => Some(i + 1)
  }

  /** `HandleRequestAsync` given what each middleware would answer, the sorted route table and
      whether a handler throws: middleware run in order until one says `false` or throws; then the
      first matching route's handler is invoked; no match is 404; an exception is 500. */
  function Dispatch<H>(verdicts: seq<Verdict>, routes: seq<Route<H>>, requestPath: string, requestMethod: string, handlerThrows: H -> bool): Dispatched<H>
  {
    match FirstStop(verdicts)
    case Some(i) => Dispatched(i + 1, None, if verdicts[i] == Stop then Refused else InternalServerError)
    case None =>
      match FirstMatch(routes, requestPath, requestMethod)
      case None => Dispatched(|verdicts|, None, NotFound)
      case Some(k) =>
        var handler := routes[k].handler;
        Dispatched(|verdicts|, Some(handler), if handlerThrows(handler) then InternalServerError else Responded)
  }

  method HandleRequest<H>(verdicts: seq<Verdict>, routes: seq<Route<H>>, requestPath: string, requestMethod: string, handlerThrows: H -> bool)
    returns (d: Dispatched<H>)
    ensures d == Dispatch(verdicts, routes, requestPath, requestMethod, handlerThrows)
  {
    var i := 0;
    while i < |verdicts|
      invariant 0 <= i <= |verdicts|
      invariant forall j :: 0 <= j < i ==> verdicts[j] == Continue
    {
      if verdicts[i] == Stop {
        return Dispatched(i + 1, None, Refused);
      } else if verdicts[i].Throw? {
        return Dispatched(i + 1, None, InternalServerError);
      }
      i := i + 1;
    }
    var found: Option<nat> := None;
    var k := 0;
    while k < |routes| && found.None?
      invariant 0 <= k <= |routes|
      invariant found.None? ==> forall j :: 0 <= j < k ==> !routes[j].MatchesRequest(requestPath, requestMethod)
      invariant found.Some? ==> found == FirstMatch(routes, requestPath, requestMethod)
    {
      if routes[k].MatchesRequest(requestPath, requestMethod) {
        FirstMatchIsFirst(routes, requestPath, requestMethod, k);
        found := Some(k);
      }
      k := k + 1;
    }
    if found.None? {
      return Dispatched(|verdicts|, None, NotFound);
    }
    var handler := routes[found.value].handler;
    d := Dispatched(|verdicts|, Some(handler), if handlerThrows(handler) then InternalServerError else Responded);
  }

  /** The first matching position is the one `FirstMatch` names. */
  lemma FirstMatchIsFirst<H>(routes: seq<Route<H>>, requestPath: string, requestMethod: string, k: nat)
    requires k < |routes| && routes[k].MatchesRequest(requestPath, requestMethod)
    requires forall j :: 0 <= j < k ==> !routes[j].MatchesRequest(requestPath, requestMethod)
    ensures FirstMatch(routes, requestPath, requestMethod) == Some(k)
  {
  }

  /** A middleware that returns `false` or throws ends the request: nothing after it runs, no
      handler is invoked, and what later middleware would have answered makes no difference. */
  lemma ShortCircuit<H>(verdicts: seq<Verdict>, later: seq<Verdict>, routes: seq<Route<H>>, requestPath: string, requestMethod: string, handlerThrows: H -> bool)
    requires FirstStop(verdicts).Some?
    ensures var i := FirstStop(verdicts).value;
      var d := Dispatch(verdicts, routes, requestPath, requestMethod, handlerThrows);
      && d.middlewareRun == i + 1 && d.invoked.None?
      && (d.ending == Refused <==> verdicts[i] == Stop)
      && (d.ending == InternalServerError <==> verdicts[i].Throw?)
      && Dispatch(verdicts + later, routes, requestPath, requestMethod, handlerThrows) == d
  {
    var i := FirstStop(verdicts).value;
    var all := verdicts + later;
    assert all[i] == verdicts[i];
    FirstStopPrefix(verdicts, later);
  }

  lemma {:induction false} FirstStopPrefix(verdicts: seq<Verdict>, later: seq<Verdict>)
    requires FirstStop(verdicts).Some?
    ensures FirstStop(verdicts + later) == FirstStop(verdicts)
  {
    if verdicts[0] == Continue {
      assert (verdicts + later)[1..] == verdicts[1..] + later;
      FirstStopPrefix(verdicts[1..], later);
    }
  }

  /** When every middleware lets the request through, exactly the handler of the first matching
      route is invoked; with no matching route the answer is 404. */
  lemma FirstMatchingHandlerRuns<H>(verdicts: seq<Verdict>, routes: seq<Route<H>>, requestPath: string, requestMethod: string, handlerThrows: H -> bool)
    requires forall j :: 0 <= j < |verdicts| ==> verdicts[j] == Continue
    ensures var d := Dispatch(verdicts, routes, requestPath, requestMethod, handlerThrows);
      && d.middlewareRun == |verdicts|
      && (d.ending == NotFound <==> forall j :: 0 <= j < |routes| ==> !routes[j].MatchesRequest(requestPath, requestMethod))
      && (d.invoked.Some? <==> exists j :: 0 <= j < |routes| && routes[j].MatchesRequest(requestPath, requestMethod))
      && (d.invoked.Some? ==>
            exists k :: (0 <= k < |routes| && d.invoked.value == routes[k].handler
              && routes[k].MatchesRequest(requestPath, requestMethod)
              && forall j :: 0 <= j < k ==> !routes[j].MatchesRequest(requestPath, requestMethod)))
  {
    assert FirstStop(verdicts).None?;
  }

  /** The table `InitializeHandlersAndModules` builds is sorted, so the handler a request reaches
      belongs to a route no other matching route is more specific than. */
  lemma MostSpecificRouteWins(configs: seq<RouteConfig>, assemblies: Assemblies, disk: Disk, verdicts: seq<Verdict>, requestPath: string, requestMethod: string, handlerThrows: HandlerView -> bool)
    requires forall j :: 0 <= j < |verdicts| ==> verdicts[j] == Continue
    ensures var table := OrderBy(LoadedRoutes(configs, assemblies, disk));
      var d := Dispatch(verdicts, table, requestPath, requestMethod, handlerThrows);
      d.invoked.Some? ==>
        exists k :: (0 <= k < |table| && d.invoked.value == table[k].handler
          && table[k].MatchesRequest(requestPath, requestMethod)
          && forall j :: 0 <= j < |table| && table[j].MatchesRequest(requestPath, requestMethod) ==> !MoreSpecific(table[j], table[k]))
  {
    var table := OrderBy(LoadedRoutes(configs, assemblies, disk));
    OrderByProperties(LoadedRoutes(configs, assemblies, disk));
    assert FirstStop(verdicts).None?;
    if FirstMatch(table, requestPath, requestMethod).Some? {
      FirstMatchIsMostSpecific(table, requestPath, requestMethod);
    }
  }
}
