/** genRoutesForAddr and ensureRoutes as EnsureNetDevice composes them. */
module RouteSetup {
  import opened Prelude
  import opened Routes

  // ---------- ensureRoutes ----------

  /** The first route without a gateway, or -1. */
  function DirectIndex(routes: seq<Route>): (i: int)
    ensures -1 <= i < |routes|
    ensures i >= 0 ==> routes[i].gateway == None
    ensures forall j :: 0 <= j < (if i < 0 then |routes| else i) ==> routes[j].gateway.Some?
  {
    if routes == [] then -1
    else if routes[0].gateway == None then 0
    else var i := DirectIndex(routes[1..]); if i < 0 then -1 else i + 1
  }

  /** The direct route and every gateway route; further routes without a gateway are skipped. */
  predicate Applied(routes: seq<Route>, k: int) {
    0 <= k < |routes| && (k == DirectIndex(routes) || routes[k].gateway.Some?)
  }

  /** What genRoutesForAddr builds: plain destinations, each configured once, the direct one not the default. */
  ghost predicate WellFormed(routes: seq<Route>) {
    && (forall r <- routes :: Plain(r))
    && (forall i, j :: Applied(routes, i) && Applied(routes, j) && i != j ==>
          DestOf(routes[i].destination) != DestOf(routes[j].destination))
    && (DirectIndex(routes) >= 0 ==> routes[DirectIndex(routes)].destination.Some?)
  }

  /** Some configured destination and metric belongs to another link, or the link has several routes to it. */
  ghost predicate Blocked(table: Table, link: int, routes: seq<Route>) {
    exists k :: Applied(routes, k) && (Taken(table, link, routes[k]) || Several(table, link, routes[k]))
  }

  /** The destinations configured once the direct route and the gateway routes before `k` are done. */
  ghost function DestsUpTo(routes: seq<Route>, k: nat): set<Dest>
    requires k <= |routes|
  {
    set j | 0 <= j < |routes| && Applied(routes, j) && (j == DirectIndex(routes) || j < k) ::
      DestOf(routes[j].destination)
  }

  /** The routes the configuration asks for. */
  ghost function AllWanted(link: int, routes: seq<Route>): set<KRoute> {
    set j | 0 <= j < |routes| && Applied(routes, j) :: Wanted(link, routes[j])
  }

  lemma AddedCompose(a: Table, b: Table, c: Table, link: int, routes: seq<Route>, k: nat)
    requires OnlyAdded(a, b, AllWanted(link, routes)) && Applied(routes, k)
    requires OnlyAdded(b, c, {Wanted(link, routes[k])})
    ensures OnlyAdded(a, c, AllWanted(link, routes))
  {}

  lemma SnapshotStays(start: Table, now: Table, nlRoutes: seq<KRoute>, link: int, dests: set<Dest>, d: Dest)
    requires OthersKept(start, now, link, dests) && d !in dests && SnapshotHolds(start, nlRoutes, link, d)
    ensures SnapshotHolds(now, nlRoutes, link, d)
  {
    forall k: Key | k.dest == d && HasRoute(now, link, k)
      ensures Listed(nlRoutes, k)
    {
      assert HasRoute(start, link, k);
    }
  }

  lemma KeptCompose(a: Table, b: Table, c: Table, link: int, dests: set<Dest>, d: Dest)
    requires OthersKept(a, b, link, dests) && OthersKept(b, c, link, {d})
    ensures OthersKept(a, c, link, dests + {d})
  {}

  /** Configuring one destination leaves another one configured. */
  lemma DoneStays(start: Table, a: Table, b: Table, link: int, r: Route, d: Dest)
    requires OthersKept(a, b, link, {d}) && d != DestOf(r.destination)
    requires ExactlyOne(a, link, r) && WantedOrKept(start, a, link, r)
    ensures ExactlyOne(b, link, r) && WantedOrKept(start, b, link, r)
  {
    assert HasRoute(a, link, Target(r));
    forall m
      ensures HasRoute(b, link, Key(DestOf(r.destination), m)) <==> HasRoute(a, link, Key(DestOf(r.destination), m))
    {}
  }

  /** For a destination nobody touched yet, what is so now was so at the start. */
  lemma FromStart(start: Table, now: Table, link: int, dests: set<Dest>, r: Route)
    requires OthersKept(start, now, link, dests) && DestOf(r.destination) !in dests
    ensures Taken(now, link, r) <==> Taken(start, link, r)
    ensures Several(now, link, r) <==> Several(start, link, r)
    ensures forall t :: WantedOrKept(now, t, link, r) ==> WantedOrKept(start, t, link, r)
  {
    forall m
      ensures HasRoute(now, link, Key(DestOf(r.destination), m)) <==>
        HasRoute(start, link, Key(DestOf(r.destination), m))
    {}
  }

  /** Every gateway route added from position `from` on found the direct route in place. */
  ghost predicate DirectFirst(adds: seq<AddEvent>, from: nat, link: int, direct: Route) {
    forall i :: from <= i < |adds| && adds[i].route.gw.Some? ==> HasRoute(adds[i].before, link, Target(direct))
  }

  lemma DirectFirstJoins(adds: seq<AddEvent>, adds': seq<AddEvent>, from: nat, link: int, direct: Route)
    requires from <= |adds| && adds <= adds' && DirectFirst(adds, from, link, direct)
    requires DirectFirst(adds', |adds|, link, direct)
    ensures DirectFirst(adds', from, link, direct)
  {
  }

  lemma DirectStays(adds: seq<AddEvent>, from: nat, table: Table, link: int, r: Route, direct: Route)
    requires AddsOf(adds, from, table, link, r) && ExactlyOne(table, link, direct)
    requires DestOf(r.destination) != DestOf(direct.destination)
    ensures DirectFirst(adds, from, link, direct)
  {
    assert HasRoute(table, link, Target(direct));
  }

  /** Where the loop over the gateway routes stands. */
  ghost predicate DoneUpTo(start: Table, table: Table, link: int, routes: seq<Route>, k: nat) {
    && k <= |routes|
    && OthersKept(start, table, link, DestsUpTo(routes, k)) && OnlyAdded(start, table, AllWanted(link, routes))
    && forall j :: Applied(routes, j) && (j == DirectIndex(routes) || j < k) ==>
         && ExactlyOne(table, link, routes[j]) && WantedOrKept(start, table, link, routes[j])
         && !Taken(start, link, routes[j]) && !Several(start, link, routes[j])
  }

  lemma NextDone(start: Table, now: Table, next: Table, link: int, routes: seq<Route>, k: nat)
    requires WellFormed(routes) && k < |routes| && routes[k].gateway.Some?
    requires DoneUpTo(start, now, link, routes, k)
    requires OthersKept(now, next, link, {DestOf(routes[k].destination)})
    requires OnlyAdded(start, next, AllWanted(link, routes))
    requires ExactlyOne(next, link, routes[k]) && WantedOrKept(now, next, link, routes[k])
    requires !Taken(now, link, routes[k]) && !Several(now, link, routes[k])
    ensures DoneUpTo(start, next, link, routes, k + 1)
  {
    var d := DestOf(routes[k].destination);
    assert Applied(routes, k);
    NotYet(routes, k);
    KeptCompose(start, now, next, link, DestsUpTo(routes, k), d);
    assert DestsUpTo(routes, k + 1) == DestsUpTo(routes, k) + {d};
    FromStart(start, now, link, DestsUpTo(routes, k), routes[k]);
    forall j | Applied(routes, j) && (j == DirectIndex(routes) || j < k)
      ensures ExactlyOne(next, link, routes[j]) && WantedOrKept(start, next, link, routes[j])
    {
      DoneStays(start, now, next, link, routes[j], d);
    }
  }

  lemma NotYet(routes: seq<Route>, k: nat)
    requires WellFormed(routes) && k < |routes| && routes[k].gateway.Some?
    ensures DestOf(routes[k].destination) !in DestsUpTo(routes, k)
  {
    assert Applied(routes, k);
  }

  /** On success the link has exactly one route for each configured destination, with exactly the configured metric
      (the configured route, or the one that already had that metric), the direct route was in place before any
      gateway route was added, and no route of another link or to another destination changed. An add collides only
      because of a route that was there at the start, and with such a route there is no success. */
  method EnsureRoutes(kernel: Kernel, link: int, routes: seq<Route>) returns (res: Outcome)
    requires kernel.Valid() && WellFormed(routes)
    modifies kernel`table, kernel`adds, kernel`refused
    ensures kernel.Valid() && OthersKept(old(kernel.table), kernel.table, link, DestsUpTo(routes, |routes|))
    ensures OnlyAdded(old(kernel.table), kernel.table, AllWanted(link, routes))
    ensures res == Configured ==> forall k :: Applied(routes, k) ==>
      ExactlyOne(kernel.table, link, routes[k]) && WantedOrKept(old(kernel.table), kernel.table, link, routes[k])
    ensures res == NoDirectRoute ==> DirectIndex(routes) < 0
    ensures res == NoDirectRoute || res == ListFailed ==> kernel.table == old(kernel.table)
    ensures res == Configured ==> DirectIndex(routes) >= 0
    ensures old(kernel.adds) <= kernel.adds
    ensures DirectIndex(routes) >= 0 ==> DirectFirst(kernel.adds, |old(kernel.adds)|, link, routes[DirectIndex(routes)])
    ensures res == AddCollided ==> Blocked(old(kernel.table), link, routes)
    ensures res == Configured ==> !Blocked(old(kernel.table), link, routes)
    ensures AsAnswered(res, link, AllWanted(link, routes), old(kernel.refused), kernel.refused)
    ensures kernel.refused == old(kernel.refused) && DirectIndex(routes) >= 0 ==> res == Configured
  {
    var nlRoutes := kernel.RouteList(Some(link));
    if nlRoutes.None? {
      return ListFailed;
    }
    var direct := DirectIndex(routes);
    if direct < 0 {
      return NoDirectRoute;
    }
    ListingHolds(kernel.table, nlRoutes.value, link);
    res := ApplyAll(kernel, link, nlRoutes.value, routes);
  }

  lemma ListingHolds(table: Table, nlRoutes: seq<KRoute>, link: int)
    requires IsListing(table, nlRoutes, Some(link))
    ensures forall d :: SnapshotHolds(table, nlRoutes, link, d)
  {}

  /** The two loops: the direct route, then every gateway route. */
  method ApplyAll(kernel: Kernel, link: int, nlRoutes: seq<KRoute>, routes: seq<Route>) returns (res: Outcome)
    requires kernel.Valid() && WellFormed(routes) && DirectIndex(routes) >= 0
    requires forall d :: SnapshotHolds(kernel.table, nlRoutes, link, d)
    modifies kernel`table, kernel`adds, kernel`refused
    ensures kernel.Valid() && OthersKept(old(kernel.table), kernel.table, link, DestsUpTo(routes, |routes|))
    ensures OnlyAdded(old(kernel.table), kernel.table, AllWanted(link, routes))
    ensures res == Configured ==> DoneUpTo(old(kernel.table), kernel.table, link, routes, |routes|)
    ensures res != NoDirectRoute && res != ListFailed
    ensures old(kernel.adds) <= kernel.adds
    ensures DirectFirst(kernel.adds, |old(kernel.adds)|, link, routes[DirectIndex(routes)])
    ensures res == AddCollided ==> Blocked(old(kernel.table), link, routes)
    ensures AsAnswered(res, link, AllWanted(link, routes), old(kernel.refused), kernel.refused)
  {
    ghost var start, adds := kernel.table, kernel.adds;
    var direct := DirectIndex(routes);
    res := DirectRoute(kernel, link, nlRoutes, routes);
    if res != Configured {
      DestsGrow(routes, 0, start, kernel.table, link);
      return;
    }
    ghost var adds' := kernel.adds;
    res := GatewayRoutes(kernel, link, nlRoutes, routes, start);
    DirectFirstJoins(adds', kernel.adds, |adds|, link, routes[direct]);
  }

  /** The first loop: the direct route. */
  method DirectRoute(kernel: Kernel, link: int, nlRoutes: seq<KRoute>, routes: seq<Route>) returns (res: Outcome)
    requires kernel.Valid() && WellFormed(routes) && DirectIndex(routes) >= 0
    requires SnapshotHolds(kernel.table, nlRoutes, link, DestOf(routes[DirectIndex(routes)].destination))
    modifies kernel`table, kernel`adds, kernel`refused
    ensures kernel.Valid() && OthersKept(old(kernel.table), kernel.table, link, DestsUpTo(routes, 0))
    ensures OnlyAdded(old(kernel.table), kernel.table, AllWanted(link, routes))
    ensures res == Configured ==> DoneUpTo(old(kernel.table), kernel.table, link, routes, 0)
    ensures res != NoDirectRoute && res != ListFailed
    ensures old(kernel.adds) <= kernel.adds
    ensures DirectFirst(kernel.adds, |old(kernel.adds)|, link, routes[DirectIndex(routes)])
    ensures res == AddCollided ==> Blocked(old(kernel.table), link, routes)
    ensures AsAnswered(res, link, AllWanted(link, routes), old(kernel.refused), kernel.refused)
  {
    ghost var start := kernel.table;
    var direct := DirectIndex(routes);
    assert Applied(routes, direct);
    res := ApplyRoute(kernel, link, nlRoutes, routes[direct]);
    AddedCompose(start, start, kernel.table, link, routes, direct);
    assert DestsUpTo(routes, 0) == {DestOf(routes[direct].destination)};
    assert Wanted(link, routes[direct]) in AllWanted(link, routes);
  }

  lemma DestsGrow(routes: seq<Route>, k: nat, start: Table, table: Table, link: int)
    requires k <= |routes| && OthersKept(start, table, link, DestsUpTo(routes, k))
    ensures OthersKept(start, table, link, DestsUpTo(routes, |routes|))
  {
    assert DestsUpTo(routes, k) <= DestsUpTo(routes, |routes|);
  }

  /** One gateway route of the loop. */
  method GatewayRoute(kernel: Kernel, link: int, nlRoutes: seq<KRoute>, routes: seq<Route>, k: nat, ghost start: Table)
    returns (res: Outcome)
    requires kernel.Valid() && WellFormed(routes) && DirectIndex(routes) >= 0
    requires k < |routes| && routes[k].gateway.Some?
    requires SnapshotHolds(start, nlRoutes, link, DestOf(routes[k].destination))
    requires DoneUpTo(start, kernel.table, link, routes, k)
    modifies kernel`table, kernel`adds, kernel`refused
    ensures kernel.Valid() && OthersKept(start, kernel.table, link, DestsUpTo(routes, |routes|))
    ensures OnlyAdded(start, kernel.table, AllWanted(link, routes))
    ensures res == Configured ==> DoneUpTo(start, kernel.table, link, routes, k + 1)
    ensures res == Configured || res == DeleteFailed || res == AddCollided || res == AddFailed
    ensures old(kernel.adds) <= kernel.adds
    ensures DirectFirst(kernel.adds, |old(kernel.adds)|, link, routes[DirectIndex(routes)])
    ensures res == AddCollided ==> Blocked(start, link, routes)
    ensures AsAnswered(res, link, AllWanted(link, routes), old(kernel.refused), kernel.refused)
  {
    ghost var now, before, d := kernel.table, |kernel.adds|, DestOf(routes[k].destination);
    NotYet(routes, k);
    SnapshotStays(start, now, nlRoutes, link, DestsUpTo(routes, k), d);
    assert Applied(routes, k) && Applied(routes, DirectIndex(routes));
    assert Wanted(link, routes[k]) in AllWanted(link, routes);
    res := ApplyRoute(kernel, link, nlRoutes, routes[k]);
    DirectStays(kernel.adds, before, now, link, routes[k], routes[DirectIndex(routes)]);
    FromStart(start, now, link, DestsUpTo(routes, k), routes[k]);
    KeptCompose(start, now, kernel.table, link, DestsUpTo(routes, k), d);
    AddedCompose(start, now, kernel.table, link, routes, k);
    assert DestsUpTo(routes, k + 1) == DestsUpTo(routes, k) + {d};
    DestsGrow(routes, k + 1, start, kernel.table, link);
    if res == Configured {
      NextDone(start, now, kernel.table, link, routes, k);
    }
  }

  method GatewayRoutes(kernel: Kernel, link: int, nlRoutes: seq<KRoute>, routes: seq<Route>,
                       ghost start: Table) returns (res: Outcome)
    requires kernel.Valid() && WellFormed(routes) && DirectIndex(routes) >= 0
    requires forall d :: SnapshotHolds(start, nlRoutes, link, d)
    requires DoneUpTo(start, kernel.table, link, routes, 0)
    modifies kernel`table, kernel`adds, kernel`refused
    ensures kernel.Valid() && OthersKept(start, kernel.table, link, DestsUpTo(routes, |routes|))
    ensures OnlyAdded(start, kernel.table, AllWanted(link, routes))
    ensures res == Configured ==> DoneUpTo(start, kernel.table, link, routes, |routes|)
    ensures res != NoDirectRoute && res != ListFailed
    ensures old(kernel.adds) <= kernel.adds
    ensures DirectFirst(kernel.adds, |old(kernel.adds)|, link, routes[DirectIndex(routes)])
    ensures res == AddCollided ==> Blocked(start, link, routes)
    ensures AsAnswered(res, link, AllWanted(link, routes), old(kernel.refused), kernel.refused)
  {
    for k := 0 to |routes|
      invariant kernel.Valid() && DoneUpTo(start, kernel.table, link, routes, k)
      invariant old(kernel.adds) <= kernel.adds
      invariant DirectFirst(kernel.adds, |old(kernel.adds)|, link, routes[DirectIndex(routes)])
      invariant kernel.refused == old(kernel.refused)
    {
      if routes[k].gateway == None {
        SkipRoute(start, kernel.table, link, routes, k);
        continue;
      }
      ghost var adds := kernel.adds;
      res := GatewayRoute(kernel, link, nlRoutes, routes, k, start);
      DirectFirstJoins(adds, kernel.adds, |old(kernel.adds)|, link, routes[DirectIndex(routes)]);
      if res != Configured {
        return;
      }
    }
    return Configured;
  }

  lemma SkipRoute(start: Table, table: Table, link: int, routes: seq<Route>, k: nat)
    requires k < |routes| && routes[k].gateway == None && DoneUpTo(start, table, link, routes, k)
    ensures DoneUpTo(start, table, link, routes, k + 1)
  {
    assert DestsUpTo(routes, k + 1) == DestsUpTo(routes, k);
  }

  // ---------- genRoutesForAddr ----------

  predicate For(nr: KRoute, destination: Option<string>) {
    DestOf(nr.dst) == DestOf(destination)
  }

  /** The Go loop over every link's routes; `existMetric` starts at 0. */
  method SelectMetric(existRoutes: seq<KRoute>, r: Route) returns (metric: int)
    requires Plain(r)
    ensures metric >= 200
    ensures forall nr <- existRoutes :: For(nr, r.destination) ==> nr.metric < metric
    ensures metric == 200 || exists nr :: nr in existRoutes && For(nr, r.destination) && metric == nr.metric + 1
  {
    var existMetric := 0;
    for i := 0 to |existRoutes|
      invariant existMetric >= 0
      invariant forall j :: 0 <= j < i && For(existRoutes[j], r.destination) ==> existRoutes[j].metric <= existMetric
      invariant existMetric == 0 ||
        exists j :: 0 <= j < i && For(existRoutes[j], r.destination) && existRoutes[j].metric == existMetric
    {
      MatchesIffSameDest(r, existRoutes[i]);
      if Matches(r, existRoutes[i]) {
        if existRoutes[i].metric > existMetric {
          existMetric := existRoutes[i].metric;
        }
      }
    }
    metric := existMetric + METRIC_ADDITION;
    if metric < DEFAULT_METRIC {
      metric := DEFAULT_METRIC;
    }
  }

  /** At least the default, above every route to the destination on any link, and the smallest such metric. */
  ghost predicate BestMetric(table: Table, r: Route) {
    && r.metric >= DEFAULT_METRIC
    && (forall k <- table :: k.dest == DestOf(r.destination) ==> k.metric < r.metric)
    && (r.metric == DEFAULT_METRIC || Key(DestOf(r.destination), r.metric - METRIC_ADDITION) in table)
  }

  lemma MetricOverListing(table: Table, routes: seq<KRoute>, r: Route)
    requires Consistent(table) && IsListing(table, routes, None) && r.metric >= DEFAULT_METRIC
    requires forall nr <- routes :: For(nr, r.destination) ==> nr.metric < r.metric
    requires r.metric == DEFAULT_METRIC ||
      exists nr :: nr in routes && For(nr, r.destination) && r.metric == nr.metric + METRIC_ADDITION
    ensures BestMetric(table, r)
  {
    forall k | k in table && k.dest == DestOf(r.destination)
      ensures k.metric < r.metric
    {
      assert Listed(routes, k);
      var i :| 0 <= i < |routes| && KeyOf(routes[i]) == k;
      assert routes[i] in routes;
    }
    if r.metric != DEFAULT_METRIC {
      var nr :| nr in routes && For(nr, r.destination) && r.metric == nr.metric + METRIC_ADDITION;
      assert KeyOf(nr) in table;
    }
  }

  /** A direct route to the subnet and a default route through the gateway. */
  ghost predicate Generated(routes: seq<Route>, gateway: string, cidr: string) {
    && |routes| == 2 && WellFormed(routes)
    && routes[0].destination == Some(cidr) && routes[0].gateway == None
    && routes[1].destination == None && routes[1].gateway == Some(gateway)
  }

  method GenRoutesForAddr(kernel: Kernel, gateway: string, cidr: string) returns (routes: Option<seq<Route>>)
    requires kernel.Valid() && cidr != DEFAULT_CIDR
    modifies kernel`refused
    ensures kernel.Valid() && kernel.refused == old(kernel.refused) + if routes.Some? then [] else [ListRefused]
    ensures routes.Some? ==>
      && Generated(routes.value, gateway, cidr)
      && BestMetric(kernel.table, routes.value[0]) && BestMetric(kernel.table, routes.value[1])
      && routes.value[0].metric >= 200 && routes.value[1].metric >= 200
  {
    var existRoutes := kernel.RouteList(None);
    if existRoutes.None? {
      return None;
    }
    var cidrRoute := Route(Some(cidr), None, 0);
    var cidrMetric := SelectMetric(existRoutes.value, cidrRoute);
    cidrRoute := cidrRoute.(metric := cidrMetric);
    var defaultRoute := Route(None, None, 0);
    var defaultMetric := SelectMetric(existRoutes.value, defaultRoute);
    defaultRoute := Route(None, Some(gateway), defaultMetric);
    MetricOverListing(kernel.table, existRoutes.value, cidrRoute);
    MetricOverListing(kernel.table, existRoutes.value, defaultRoute);
    return Some([cidrRoute, defaultRoute]);
  }

  // ---------- Composition ----------

  ghost predicate Lowest(table: Table, k: Key) {
    k in table && forall j <- table :: j.dest == k.dest ==> k.metric <= j.metric
  }

  /** With metrics above every existing one, all that can block is the link's own several routes to a destination. */
  lemma NeverCollides(table: Table, link: int, routes: seq<Route>)
    requires forall k :: Applied(routes, k) ==> Above(table, routes[k])
    ensures Blocked(table, link, routes) <==> exists k :: Applied(routes, k) && Several(table, link, routes[k])
  {
    if Blocked(table, link, routes) {
      var k :| Applied(routes, k) && (Taken(table, link, routes[k]) || Several(table, link, routes[k]));
      assert Above(table, routes[k]) && Target(routes[k]) !in table;
    }
  }

  /** Where no other route has the chosen metric, every configured route is in place, gateway included. */
  lemma GatewayInPlace(start: Table, table: Table, link: int, r: Route)
    requires WantedOrKept(start, table, link, r)
    ensures table[Target(r)] == Wanted(link, r) <==> (Target(r) in start ==> start[Target(r)] == Wanted(link, r))
    ensures Above(start, r) ==> table[Target(r)] == Wanted(link, r)
  {
    if Above(start, r) {
      assert Target(r) in start ==> Target(r).dest == DestOf(r.destination) && Target(r).metric < r.metric;
    }
  }

  /** Configuring the link, however far it gets, never takes the lowest-metric route of a destination away from
      another link. */
  lemma LowestStays(before: Table, after: Table, link: int, routes: seq<Route>, k: Key)
    requires Lowest(before, k) && before[k].link != link
    requires OthersKept(before, after, link, DestsUpTo(routes, |routes|))
    requires OnlyAdded(before, after, AllWanted(link, routes))
    requires forall i :: Applied(routes, i) ==> Above(before, routes[i])
    ensures Lowest(after, k) && after[k] == before[k]
  {
    forall j | j in after && j.dest == k.dest
      ensures k.metric <= j.metric
    {
      if !(j in before && after[j] == before[j]) {
        var i :| 0 <= i < |routes| && Applied(routes, i) && after[j] == Wanted(link, routes[i]);
        assert j == Target(routes[i]);
      }
    }
  }

  /** Chosen metrics: at least the default, and above every route to the destination on any link. */
  ghost predicate WellAbove(table: Table, routes: seq<Route>) {
    forall r <- routes :: r.metric >= DEFAULT_METRIC && Above(table, r)
  }

  /** ensureRoutes with well-chosen metrics. Whatever the outcome, other links keep their best routes, and nothing but
      this link's routes to the configured destinations changes; an add collides only if the link had several routes to
      a destination; on success every configured route is in place, gateway included. */
  method SetUpRoutes(kernel: Kernel, link: int, routes: seq<Route>) returns (res: Outcome)
    requires kernel.Valid() && WellFormed(routes) && WellAbove(kernel.table, routes)
    modifies kernel`table, kernel`adds, kernel`refused
    ensures kernel.Valid() && OnlyThisLink(old(kernel.table), kernel.table, link, routes)
    ensures res == AddCollided ==> exists k :: Applied(routes, k) && Several(old(kernel.table), link, routes[k])
    ensures res == Configured ==> InPlace(old(kernel.table), kernel.table, link, routes)
    ensures BestKept(old(kernel.table), kernel.table, link)
    ensures AsAnswered(res, link, AllWanted(link, routes), old(kernel.refused), kernel.refused)
    ensures kernel.refused == old(kernel.refused) && DirectIndex(routes) >= 0 ==> res == Configured
  {
    ghost var before := kernel.table;
    NeverCollides(before, link, routes);
    res := EnsureRoutes(kernel, link, routes);
    forall k: Key | Lowest(before, k) && before[k].link != link
      ensures Lowest(kernel.table, k) && kernel.table[k] == before[k]
    {
      LowestStays(before, kernel.table, link, routes, k);
    }
    if res == Configured {
      forall k | Applied(routes, k)
        ensures kernel.table[Target(routes[k])] == Wanted(link, routes[k])
      {
        GatewayInPlace(before, kernel.table, link, routes[k]);
      }
    }
  }

  /** Nothing differs but routes of this link to configured destinations, and what is new there was asked for. */
  ghost predicate OnlyThisLink(before: Table, after: Table, link: int, routes: seq<Route>) {
    OthersKept(before, after, link, DestsUpTo(routes, |routes|)) && OnlyAdded(before, after, AllWanted(link, routes))
  }

  /** Every configured route is the link's only one to its destination, which then had at most one before. */
  ghost predicate InPlace(before: Table, after: Table, link: int, routes: seq<Route>) {
    forall k :: Applied(routes, k) ==>
      && !Several(before, link, routes[k]) && ExactlyOne(after, link, routes[k])
      && Target(routes[k]) in after && after[Target(routes[k])].link == link
      && after[Target(routes[k])].dst == routes[k].destination && after[Target(routes[k])].gw == routes[k].gateway
      && after[Target(routes[k])].metric == routes[k].metric
  }

  /** A lowest-metric route of another link is still there and still the lowest. */
  ghost predicate BestKept(before: Table, after: Table, link: int) {
    forall k: Key :: Lowest(before, k) && before[k].link != link ==> Lowest(after, k) && after[k] == before[k]
  }

  /** The route part of EnsureNetDevice for a link that is down: choose metrics over the whole table, let other
      programs and the new address change the table to `before`, then set up the routes. */
  method ConfigureLink(kernel: Kernel, link: int, gateway: string, cidr: string)
    returns (res: Outcome, ghost routes: seq<Route>, ghost before: Table)
    requires kernel.Valid() && cidr != DEFAULT_CIDR
    modifies kernel
    ensures kernel.Valid()
    ensures routes == [] ==>
      res == ListFailed && kernel.table == old(kernel.table) && kernel.outside == old(kernel.outside)
    ensures routes != [] ==>
      && Generated(routes, gateway, cidr) && (forall r <- routes :: BestMetric(old(kernel.table), r))
      && kernel.outside == old(kernel.outside) + [Outside(old(kernel.table), before)] && WellAbove(before, routes)
      && OnlyThisLink(before, kernel.table, link, routes) && BestKept(before, kernel.table, link)
    ensures res == AddCollided ==> exists k :: Applied(routes, k) && Several(before, link, routes[k])
    ensures res == Configured ==> routes != [] && InPlace(before, kernel.table, link, routes)
    ensures AsAnswered(res, link, AllWanted(link, routes), old(kernel.refused), kernel.refused)
    ensures kernel.refused == old(kernel.refused) ==> res == Configured
  {
    routes, before := [], kernel.table;
    var generated := GenRoutesForAddr(kernel, gateway, cidr);
    if generated.None? {
      return ListFailed, routes, before;
    }
    kernel.Interference(generated.value);
    routes, before := generated.value, kernel.table;
    res := SetUpRoutes(kernel, link, generated.value);
  }

  /** A link with two routes to the subnet can never be configured: the second replacement meets the first. */
  lemma TwoRoutesBlock(link: int, cidr: string, gateway: string)
    requires cidr != DEFAULT_CIDR
    ensures
      var table := map[Key(Subnet(cidr), 100) := KRoute(Some(cidr), None, link, 100),
                       Key(Subnet(cidr), 300) := KRoute(Some(cidr), None, link, 300)];
      var routes := [Route(Some(cidr), None, 301), Route(None, Some(gateway), DEFAULT_METRIC)];
      && Consistent(table) && Generated(routes, gateway, cidr) && (forall r <- routes :: BestMetric(table, r))
      && Blocked(table, link, routes)
  {
    var table := map[Key(Subnet(cidr), 100) := KRoute(Some(cidr), None, link, 100),
                     Key(Subnet(cidr), 300) := KRoute(Some(cidr), None, link, 300)];
    var routes := [Route(Some(cidr), None, 301), Route(None, Some(gateway), DEFAULT_METRIC)];
    assert DestOf(Some(cidr)) == Subnet(cidr) && Key(Subnet(cidr), 301 - METRIC_ADDITION) in table;
    assert HasRoute(table, link, Key(DestOf(routes[0].destination), 100));
    assert HasRoute(table, link, Key(DestOf(routes[0].destination), 300));
    assert Applied(routes, 0) && Several(table, link, routes[0]);
  }
}
