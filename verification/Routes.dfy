/** The kernel route table, and what ensureRoutes does for one destination: it walks a snapshot of the link's routes
    while it changes the live table. */
module Routes {
  import opened Prelude

  const DEFAULT_CIDR := "0.0.0.0/0"
  const DEFAULT_METRIC := 200
  const METRIC_ADDITION := 1

  datatype Dest = Default | Subnet(cidr: string)

  /** To the kernel a nil destination and 0.0.0.0/0 are the same. */
  function DestOf(dst: Option<string>): Dest {
    if dst == None || dst.value == DEFAULT_CIDR then Default else Subnet(dst.value)
  }

  /** Two ways to name a destination mean the same one only if they are the same, or both name the default route. */
  lemma DestsMeet(a: Option<string>, b: Option<string>)
    ensures DestOf(a) == DestOf(b) <==>
      a == b || (a in {None, Some("0.0.0.0/0")} && b in {None, Some("0.0.0.0/0")})
  {}

  datatype KRoute = KRoute(dst: Option<string>, gw: Option<string>, link: int, metric: int)

  datatype Route = Route(destination: Option<string>, gateway: Option<string>, metric: int)

  datatype Key = Key(dest: Dest, metric: int)

  /** The kernel holds one route per destination and metric. */
  type Table = map<Key, KRoute>

  function KeyOf(r: KRoute): Key {
    Key(DestOf(r.dst), r.metric)
  }

  predicate Consistent(table: Table) {
    forall k <- table :: KeyOf(table[k]) == k
  }

  /** A listed route may spell the default destination either way. */
  predicate Shows(table: Table, nr: KRoute) {
    KeyOf(nr) in table && table[KeyOf(nr)].link == nr.link && table[KeyOf(nr)].gw == nr.gw
  }

  datatype AddResult = Added | Exists | Refused

  datatype AddEvent = AddEvent(route: KRoute, before: Table)

  /** A call the kernel answered with an error: it refused, or an add met a route of that destination and metric. */
  datatype Refusal = ListRefused | DelRefused(route: KRoute) | AddRefused(route: KRoute) | AddMet(route: KRoute)

  /** What others made of the table while this program was not looking. */
  datatype Outside = Outside(before: Table, after: Table)

  // ---------- The kernel ----------

  class Kernel {
    var table: Table
    ghost var adds: seq<AddEvent>
    ghost var outside: seq<Outside>
    ghost var refused: seq<Refusal>

    constructor (table: Table)
      requires Consistent(table)
      ensures Valid() && this.table == table && adds == [] && outside == [] && refused == []
    {
      this.table, adds, outside, refused := table, [], [], [];
    }

    predicate Valid() reads this {
      Consistent(table)
    }

    /** Other programs and the kernel itself change the table, except that no route to a destination of `ours` reaches
        the metric chosen for it. The body changes nothing; callers know only the contract. */
    method Interference(ghost ours: seq<Route>)
      requires Valid() && forall r <- ours :: Above(table, r)
      modifies `table, `outside
      ensures Valid() && outside == old(outside) + [Outside(old(table), table)]
      ensures forall r <- ours :: Above(table, r)
    {
      outside := outside + [Outside(table, table)];
    }

    /** The routes of one link, or of all links, in any order. */
    method RouteList(link: Option<int>) returns (r: Option<seq<KRoute>>)
      requires Valid()
      modifies `refused
      ensures Valid() && refused == old(refused) + if r.Some? then [] else [ListRefused]
      ensures r.Some? ==> IsListing(table, r.value, link)
    {
      if * {
        refused := refused + [ListRefused];
        return None;
      }
      var rest := table.Keys;
      var routes: seq<KRoute> := [];
      while rest != {}
        invariant rest <= table.Keys
        invariant forall nr <- routes :: Shows(table, nr) && OnLink(nr, link) && KeyOf(nr) !in rest
        invariant forall i, j :: 0 <= i < j < |routes| ==> KeyOf(routes[i]) != KeyOf(routes[j])
        invariant forall k <- table :: k in rest || (link.Some? && table[k].link != link.value) || Listed(routes, k)
        decreases rest
      {
        var k :| k in rest;
        ghost var listed := routes;
        rest := rest - {k};
        if link == None || table[k].link == link.value {
          routes := routes + [table[k]];
          assert routes[|listed|] == table[k];
          forall x | Listed(listed, x)
            ensures Listed(routes, x)
          {
            var i :| 0 <= i < |listed| && KeyOf(listed[i]) == x;
            assert routes[i] == listed[i];
          }
        }
      }
      return Some(routes);
    }

    method RouteDel(nr: KRoute) returns (ok: bool)
      requires Valid()
      modifies `table, `refused
      ensures Valid() && refused == old(refused) + if ok then [] else [DelRefused(nr)]
      ensures ok ==> Shows(old(table), nr) && table == old(table) - {KeyOf(nr)}
      ensures !ok ==> table == old(table)
    {
      ok := *;
      ok := ok && Shows(table, nr);
      if ok {
        table := table - {KeyOf(nr)};
      } else {
        refused := refused + [DelRefused(nr)];
      }
    }

    method RouteAdd(r: KRoute) returns (res: AddResult)
      requires Valid()
      modifies `table, `adds, `refused
      ensures Valid()
      ensures res == Added ==> refused == old(refused)
      ensures res == Exists ==> refused == old(refused) + [AddMet(r)]
      ensures res == Refused ==> refused == old(refused) + [AddRefused(r)]
      ensures res == Exists <==> KeyOf(r) in old(table)
      ensures res == Added ==> table == old(table)[KeyOf(r) := r]
      ensures res != Added ==> table == old(table)
      ensures adds == old(adds) + [AddEvent(r, old(table))]
    {
      adds := adds + [AddEvent(r, table)];
      if KeyOf(r) in table {
        refused := refused + [AddMet(r)];
        return Exists;
      }
      if * {
        refused := refused + [AddRefused(r)];
        return Refused;
      }
      table := table[KeyOf(r) := r];
      return Added;
    }
  }

  predicate OnLink(nr: KRoute, link: Option<int>) {
    link == None || nr.link == link.value
  }

  ghost predicate Listed(routes: seq<KRoute>, k: Key) {
    exists i :: 0 <= i < |routes| && KeyOf(routes[i]) == k
  }

  ghost predicate IsListing(table: Table, routes: seq<KRoute>, link: Option<int>) {
    && (forall nr <- routes :: Shows(table, nr) && OnLink(nr, link))
    && (forall i, j :: 0 <= i < j < |routes| ==> KeyOf(routes[i]) != KeyOf(routes[j]))
    && (forall k <- table :: OnLink(table[k], link) ==> Listed(routes, k))
  }

  // ---------- What configuring one destination means ----------

  /** The Go test that a listed route is for the configured destination. */
  predicate Matches(r: Route, nr: KRoute) {
    || (r.destination == None && nr.dst == None)
    || (r.destination == None && nr.dst == Some(DEFAULT_CIDR))
    || (r.destination.Some? && nr.dst.Some? && r.destination.value == nr.dst.value)
  }

  /** The default route is configured as nil, never as 0.0.0.0/0. */
  predicate Plain(r: Route) {
    r.destination != Some(DEFAULT_CIDR)
  }

  function Target(r: Route): Key {
    Key(DestOf(r.destination), r.metric)
  }

  predicate HasRoute(table: Table, link: int, k: Key) {
    k in table && table[k].link == link
  }

  /** Only routes of this link to these destinations differ. */
  ghost predicate OthersKept(before: Table, after: Table, link: int, dests: set<Dest>) {
    && (forall k: Key :: k in before && !(k.dest in dests && before[k].link == link) ==>
        k in after && after[k] == before[k])
    && (forall k: Key :: k in after && !(k.dest in dests && after[k].link == link) ==>
        k in before && before[k] == after[k])
  }

  /** The link has exactly one route to the destination, with exactly the configured metric. */
  ghost predicate ExactlyOne(table: Table, link: int, r: Route) {
    forall m :: HasRoute(table, link, Key(DestOf(r.destination), m)) <==> m == r.metric
  }

  /** The route the link's configuration asks for. */
  function Wanted(link: int, r: Route): KRoute {
    KRoute(r.destination, r.gateway, link, r.metric)
  }

  /** A route that already had the configured metric is left as it was, gateway included; where there was none, the
      configured route is in place. */
  ghost predicate WantedOrKept(start: Table, table: Table, link: int, r: Route) {
    Target(r) in table && table[Target(r)] == if Target(r) in start then start[Target(r)] else Wanted(link, r)
  }

  /** Every route was there before or is one of `news`. */
  ghost predicate OnlyAdded(before: Table, after: Table, news: set<KRoute>) {
    forall k: Key :: k in after ==> (k in before && after[k] == before[k]) || (after[k] in news && KeyOf(after[k]) == k)
  }

  /** No route to the destination, on any link, has reached the metric. */
  ghost predicate Above(table: Table, r: Route) {
    forall k <- table :: k.dest == DestOf(r.destination) ==> k.metric < r.metric
  }

  /** The two reasons an add can meet an existing route. */
  ghost predicate Taken(table: Table, link: int, r: Route) {
    Target(r) in table && table[Target(r)].link != link
  }

  ghost predicate Several(table: Table, link: int, r: Route) {
    exists m, n | m != n ::
      HasRoute(table, link, Key(DestOf(r.destination), m)) && HasRoute(table, link, Key(DestOf(r.destination), n))
  }

  datatype Outcome = Configured | ListFailed | NoDirectRoute | DeleteFailed | AddCollided | AddFailed

  /** The outcome is what the kernel's answers make it: it fails with the first call that is answered with an error, a
      listing, a delete of a route of this link or an add of one of `news`, and with nothing else. */
  ghost predicate AsAnswered(res: Outcome, link: int, news: set<KRoute>, before: seq<Refusal>, after: seq<Refusal>) {
    match res
    case Configured => after == before
    case NoDirectRoute => after == before
    case ListFailed => after == before + [ListRefused]
    case DeleteFailed => exists nr: KRoute :: nr.link == link && after == before + [DelRefused(nr)]
    case AddCollided => exists nr: KRoute :: nr in news && after == before + [AddMet(nr)]
    case AddFailed => exists nr: KRoute :: nr in news && after == before + [AddRefused(nr)]
  }

  /** The snapshot still shows every route of the link to this destination, and nothing else for it. */
  ghost predicate SnapshotHolds(table: Table, nlRoutes: seq<KRoute>, link: int, d: Dest) {
    && (forall nr <- nlRoutes :: DestOf(nr.dst) == d ==> Shows(table, nr) && nr.link == link)
    && (forall i, j :: 0 <= i < j < |nlRoutes| ==> KeyOf(nlRoutes[i]) != KeyOf(nlRoutes[j]))
    && (forall k: Key :: k.dest == d && HasRoute(table, link, k) ==> Listed(nlRoutes, k))
  }

  // ---------- The inner loop of ensureRoutes ----------

  /** Where the inner loop stands: `i` listed routes are behind it. */
  ghost predicate Midway(start: Table, table: Table, nlRoutes: seq<KRoute>, link: int, r: Route, i: nat, found: bool) {
    var d := DestOf(r.destination);
    && i <= |nlRoutes|
    && OthersKept(start, table, link, {d}) && OnlyAdded(start, table, {Wanted(link, r)})
    && (forall j :: i <= j < |nlRoutes| && DestOf(nlRoutes[j].dst) == d ==> Shows(table, nlRoutes[j]))
    && (forall m :: HasRoute(table, link, Key(d, m)) ==> (found && m == r.metric) || ListedFrom(nlRoutes, Key(d, m), i))
    && (found ==> HasRoute(table, link, Target(r)) && WantedOrKept(start, table, link, r))
    && (found <==> exists j :: 0 <= j < i && DestOf(nlRoutes[j].dst) == d)
    && (!found ==> table == start)
  }

  ghost predicate ListedFrom(routes: seq<KRoute>, k: Key, from: nat) {
    exists j :: from <= j < |routes| && KeyOf(routes[j]) == k
  }

  lemma LoopStarts(start: Table, nlRoutes: seq<KRoute>, link: int, r: Route)
    requires SnapshotHolds(start, nlRoutes, link, DestOf(r.destination))
    ensures Midway(start, start, nlRoutes, link, r, 0, false)
  {
    forall m | HasRoute(start, link, Key(DestOf(r.destination), m))
      ensures ListedFrom(nlRoutes, Key(DestOf(r.destination), m), 0)
    {
      assert Listed(nlRoutes, Key(DestOf(r.destination), m));
    }
  }

  lemma LoopSkips(start: Table, table: Table, nlRoutes: seq<KRoute>, link: int, r: Route, i: nat, found: bool)
    requires SnapshotHolds(start, nlRoutes, link, DestOf(r.destination))
    requires Midway(start, table, nlRoutes, link, r, i, found) && i < |nlRoutes|
    requires DestOf(nlRoutes[i].dst) == DestOf(r.destination) ==> nlRoutes[i].metric == r.metric
    ensures Midway(start, table, nlRoutes, link, r, i + 1, found || DestOf(nlRoutes[i].dst) == DestOf(r.destination))
  {
    var d := DestOf(r.destination);
    assert nlRoutes[i] in nlRoutes;
    forall m | HasRoute(table, link, Key(d, m))
      ensures ((found || DestOf(nlRoutes[i].dst) == d) && m == r.metric) || ListedFrom(nlRoutes, Key(d, m), i + 1)
    {
      if !(found && m == r.metric) {
        var j :| i <= j < |nlRoutes| && KeyOf(nlRoutes[j]) == Key(d, m);
      }
    }
  }

  lemma ReplacedOthersKept(start: Table, table: Table, next: Table, link: int, r: Route, gone: Key, added: KRoute)
    requires OthersKept(start, table, link, {DestOf(r.destination)})
    requires gone.dest == DestOf(r.destination) && HasRoute(table, link, gone) && added.link == link
    requires Target(r) !in table - {gone} && next == (table - {gone})[Target(r) := added]
    ensures OthersKept(start, next, link, {DestOf(r.destination)})
  {
  }

  lemma LoopReplaces(start: Table, table: Table, next: Table, nlRoutes: seq<KRoute>, link: int, r: Route, i: nat,
                     found: bool, added: KRoute)
    requires SnapshotHolds(start, nlRoutes, link, DestOf(r.destination))
    requires Midway(start, table, nlRoutes, link, r, i, found) && i < |nlRoutes|
    requires DestOf(nlRoutes[i].dst) == DestOf(r.destination) && nlRoutes[i].metric != r.metric
    requires added == Wanted(link, r) && KeyOf(added) == Target(r)
    requires Target(r) !in table - {KeyOf(nlRoutes[i])} && next == (table - {KeyOf(nlRoutes[i])})[Target(r) := added]
    ensures Midway(start, next, nlRoutes, link, r, i + 1, true)
  {
    var d := DestOf(r.destination);
    assert nlRoutes[i] in nlRoutes;
    ReplacedOthersKept(start, table, next, link, r, KeyOf(nlRoutes[i]), added);
    forall m | HasRoute(next, link, Key(d, m))
      ensures m == r.metric || ListedFrom(nlRoutes, Key(d, m), i + 1)
    {
      if m != r.metric {
        assert HasRoute(table, link, Key(d, m));
        var j :| i <= j < |nlRoutes| && KeyOf(nlRoutes[j]) == Key(d, m);
      }
    }
  }

  /** An add in the loop meets an existing route only if another link has that destination and metric, or this link
      had several routes to the destination. */
  lemma LoopCollides(start: Table, table: Table, nlRoutes: seq<KRoute>, link: int, r: Route, i: nat, found: bool)
    requires SnapshotHolds(start, nlRoutes, link, DestOf(r.destination))
    requires Midway(start, table, nlRoutes, link, r, i, found) && i < |nlRoutes|
    requires DestOf(nlRoutes[i].dst) == DestOf(r.destination) && nlRoutes[i].metric != r.metric
    requires Target(r) in table
    ensures Taken(start, link, r) || Several(start, link, r)
  {
    var d := DestOf(r.destination);
    assert nlRoutes[i] in nlRoutes && HasRoute(start, link, KeyOf(nlRoutes[i]));
    if table[Target(r)].link == link {
      if found {
        var j :| 0 <= j < i && DestOf(nlRoutes[j].dst) == d;
        assert nlRoutes[j] in nlRoutes && HasRoute(start, link, KeyOf(nlRoutes[j]));
        assert nlRoutes[j].metric != nlRoutes[i].metric;
        assert HasRoute(start, link, Key(d, nlRoutes[j].metric)) && HasRoute(start, link, Key(d, nlRoutes[i].metric));
      } else {
        assert HasRoute(start, link, Key(d, r.metric)) && HasRoute(start, link, Key(d, nlRoutes[i].metric));
      }
    }
  }

  lemma LoopEnds(start: Table, table: Table, nlRoutes: seq<KRoute>, link: int, r: Route, found: bool)
    requires Midway(start, table, nlRoutes, link, r, |nlRoutes|, found)
    ensures Settled(start, table, link, r, found)
  {}

  lemma MatchesIffSameDest(r: Route, nr: KRoute)
    requires Plain(r)
    ensures Matches(r, nr) <==> DestOf(nr.dst) == DestOf(r.destination)
  {}

  /** Adding where the link had no route to the destination. */
  lemma FirstAdd(start: Table, link: int, r: Route)
    requires forall m :: !HasRoute(start, link, Key(DestOf(r.destination), m))
    ensures
      var route := Wanted(link, r);
      && KeyOf(route) == Target(r) && OthersKept(start, start, link, {DestOf(r.destination)})
      && (Target(r) in start ==> Taken(start, link, r))
      && OnlyAdded(start, start, {route}) && OnlyAdded(start, start[Target(r) := route], {route})
      && (Target(r) !in start ==>
            OthersKept(start, start[Target(r) := route], link, {DestOf(r.destination)}) &&
              ExactlyOne(start[Target(r) := route], link, r))
  {}

  /** Every add from position `from` on is one of `r`, made while other destinations and links were as at the start. */
  ghost predicate AddsOf(adds: seq<AddEvent>, from: nat, start: Table, link: int, r: Route) {
    forall i :: from <= i < |adds| ==>
      adds[i].route == Wanted(link, r) && OthersKept(start, adds[i].before, link, {DestOf(r.destination)})
  }

  /** Delete one listed route and add the configured one in its place. */
  method Replace(kernel: Kernel, link: int, nlRoutes: seq<KRoute>, r: Route, nr: KRoute, ghost start: Table,
                 ghost i: nat, ghost found: bool)
    returns (res: Outcome)
    requires kernel.Valid() && Plain(r) && SnapshotHolds(start, nlRoutes, link, DestOf(r.destination))
    requires Midway(start, kernel.table, nlRoutes, link, r, i, found) && i < |nlRoutes| && nlRoutes[i] == nr
    requires DestOf(nr.dst) == DestOf(r.destination) && nr.metric != r.metric
    modifies kernel`table, kernel`adds, kernel`refused
    ensures kernel.Valid() && OthersKept(start, kernel.table, link, {DestOf(r.destination)})
    ensures OnlyAdded(start, kernel.table, {Wanted(link, r)})
    ensures res == Configured ==>
      Midway(start, kernel.table, nlRoutes, link, r, i + 1, true) && !found && Target(r) !in start
    ensures res == Configured || res == DeleteFailed || res == AddCollided || res == AddFailed
    ensures res == AddCollided ==> Taken(start, link, r) || Several(start, link, r)
    ensures old(kernel.adds) <= kernel.adds && AddsOf(kernel.adds, |old(kernel.adds)|, start, link, r)
    ensures AsAnswered(res, link, {Wanted(link, r)}, old(kernel.refused), kernel.refused)
  {
    ghost var table := kernel.table;
    assert nr in nlRoutes;
    var deleted := kernel.RouteDel(nr);
    if !deleted {
      return DeleteFailed;
    }
    LoopDeletes(start, table, nlRoutes, link, r, i, found);
    ghost var gone := kernel.table;
    var added := kernel.RouteAdd(Wanted(link, r));
    if added == Exists {
      LoopCollides(start, table, nlRoutes, link, r, i, found);
      return AddCollided;
    }
    if added == Refused {
      return AddFailed;
    }
    LoopReplaces(start, table, kernel.table, nlRoutes, link, r, i, found, Wanted(link, r));
    LoopFreed(start, table, gone, nlRoutes, link, r, i, found);
    return Configured;
  }

  /** Deleting a listed route to the destination leaves the rest as it was. */
  lemma LoopDeletes(start: Table, table: Table, nlRoutes: seq<KRoute>, link: int, r: Route, i: nat, found: bool)
    requires Consistent(table) && SnapshotHolds(start, nlRoutes, link, DestOf(r.destination))
    requires Midway(start, table, nlRoutes, link, r, i, found) && i < |nlRoutes|
    requires DestOf(nlRoutes[i].dst) == DestOf(r.destination) && Shows(table, nlRoutes[i])
    ensures OthersKept(start, table - {KeyOf(nlRoutes[i])}, link, {DestOf(r.destination)})
    ensures OnlyAdded(start, table - {KeyOf(nlRoutes[i])}, {Wanted(link, r)})
  {
    assert nlRoutes[i] in nlRoutes;
  }

  /** Where the add goes through after a delete, no listed route to the destination was passed before, and the
      configured metric was free at the start. */
  lemma LoopFreed(start: Table, table: Table, gone: Table, nlRoutes: seq<KRoute>, link: int, r: Route, i: nat,
                  found: bool)
    requires SnapshotHolds(start, nlRoutes, link, DestOf(r.destination))
    requires Midway(start, table, nlRoutes, link, r, i, found) && i < |nlRoutes|
    requires DestOf(nlRoutes[i].dst) == DestOf(r.destination) && nlRoutes[i].metric != r.metric
    requires gone == table - {KeyOf(nlRoutes[i])} && Target(r) !in gone
    ensures !found && Target(r) !in start
  {
    assert KeyOf(nlRoutes[i]) != Target(r);
  }

  /** Among the first i listed routes at most one is to the destination, and if its metric differs the configured
      metric was free: otherwise an add would have met an existing route. */
  ghost predicate SingleSoFar(start: Table, nlRoutes: seq<KRoute>, r: Route, i: nat)
    requires i <= |nlRoutes|
  {
    var d := DestOf(r.destination);
    && (forall a, b | 0 <= a < b < i :: DestOf(nlRoutes[a].dst) != d || DestOf(nlRoutes[b].dst) != d)
    && (forall a | 0 <= a < i && DestOf(nlRoutes[a].dst) == d :: nlRoutes[a].metric != r.metric ==> Target(r) !in start)
  }

  lemma SingleSkips(start: Table, nlRoutes: seq<KRoute>, link: int, r: Route, i: nat)
    requires SnapshotHolds(start, nlRoutes, link, DestOf(r.destination)) && i < |nlRoutes|
    requires SingleSoFar(start, nlRoutes, r, i)
    requires DestOf(nlRoutes[i].dst) == DestOf(r.destination) ==> nlRoutes[i].metric == r.metric
    ensures SingleSoFar(start, nlRoutes, r, i + 1)
  {
    assert nlRoutes[i] in nlRoutes;
    forall a | 0 <= a < i && DestOf(nlRoutes[a].dst) == DestOf(r.destination)
      ensures DestOf(nlRoutes[i].dst) != DestOf(r.destination)
    {
      assert KeyOf(nlRoutes[a]) != KeyOf(nlRoutes[i]);
    }
  }

  lemma SingleEnds(start: Table, nlRoutes: seq<KRoute>, link: int, r: Route)
    requires SnapshotHolds(start, nlRoutes, link, DestOf(r.destination))
    requires SingleSoFar(start, nlRoutes, r, |nlRoutes|)
    ensures !Several(start, link, r)
  {
    var d := DestOf(r.destination);
    forall m, n | HasRoute(start, link, Key(d, m)) && HasRoute(start, link, Key(d, n))
      ensures m == n
    {
      assert Listed(nlRoutes, Key(d, m)) && Listed(nlRoutes, Key(d, n));
      var a :| 0 <= a < |nlRoutes| && KeyOf(nlRoutes[a]) == Key(d, m);
      var b :| 0 <= b < |nlRoutes| && KeyOf(nlRoutes[b]) == Key(d, n);
      assert a == b;
    }
  }

  /** What the inner loop does with one listed route. */
  method Consider(kernel: Kernel, link: int, nlRoutes: seq<KRoute>, r: Route, i: nat, found: bool, ghost start: Table)
    returns (res: Outcome, found': bool)
    requires kernel.Valid() && Plain(r) && SnapshotHolds(start, nlRoutes, link, DestOf(r.destination)) && i < |nlRoutes|
    requires Midway(start, kernel.table, nlRoutes, link, r, i, found) && SingleSoFar(start, nlRoutes, r, i)
    modifies kernel`table, kernel`adds, kernel`refused
    ensures kernel.Valid() && OthersKept(start, kernel.table, link, {DestOf(r.destination)})
    ensures OnlyAdded(start, kernel.table, {Wanted(link, r)})
    ensures res == Configured ==>
      Midway(start, kernel.table, nlRoutes, link, r, i + 1, found') && SingleSoFar(start, nlRoutes, r, i + 1)
    ensures res == Configured || res == DeleteFailed || res == AddCollided || res == AddFailed
    ensures res == AddCollided ==> Taken(start, link, r) || Several(start, link, r)
    ensures old(kernel.adds) <= kernel.adds && AddsOf(kernel.adds, |old(kernel.adds)|, start, link, r)
    ensures AsAnswered(res, link, {Wanted(link, r)}, old(kernel.refused), kernel.refused)
  {
    var nr := nlRoutes[i];
    found' := found || Matches(r, nr);
    MatchesIffSameDest(r, nr);
    if Matches(r, nr) && r.metric != nr.metric {
      res := Replace(kernel, link, nlRoutes, r, nr, start, i, found);
    } else {
      LoopSkips(start, kernel.table, nlRoutes, link, r, i, found);
      SingleSkips(start, nlRoutes, link, r, i);
      res := Configured;
    }
  }

  /** After the inner loop: add the route where the snapshot showed none to the destination. */
  method AddMissing(kernel: Kernel, link: int, r: Route, found: bool, ghost start: Table) returns (res: Outcome)
    requires kernel.Valid() && Settled(start, kernel.table, link, r, found)
    modifies kernel`table, kernel`adds, kernel`refused
    ensures kernel.Valid() && OthersKept(start, kernel.table, link, {DestOf(r.destination)})
    ensures OnlyAdded(start, kernel.table, {Wanted(link, r)})
    ensures res == Configured ==> ExactlyOne(kernel.table, link, r) && WantedOrKept(start, kernel.table, link, r)
    ensures res == Configured || res == AddCollided || res == AddFailed
    ensures res == AddCollided ==> Taken(start, link, r)
    ensures old(kernel.adds) <= kernel.adds && AddsOf(kernel.adds, |old(kernel.adds)|, start, link, r)
    ensures AsAnswered(res, link, {Wanted(link, r)}, old(kernel.refused), kernel.refused)
  {
    if !found {
      FirstAdd(start, link, r);
      var added := kernel.RouteAdd(Wanted(link, r));
      if added != Added {
        return if added == Exists then AddCollided else AddFailed;
      }
    }
    return Configured;
  }

  /** What the inner loop leaves: the destination is configured, or the link had no route to it and nothing changed. */
  ghost predicate Settled(start: Table, table: Table, link: int, r: Route, found: bool) {
    && OthersKept(start, table, link, {DestOf(r.destination)}) && OnlyAdded(start, table, {Wanted(link, r)})
    && (found ==> ExactlyOne(table, link, r) && WantedOrKept(start, table, link, r))
    && (!found ==> table == start && (forall m :: !HasRoute(table, link, Key(DestOf(r.destination), m))))
  }

  /** The two loops of ensureRoutes share this body: replace what the snapshot shows for the destination, or add. It
      cannot succeed where the link has several routes to the destination or another link holds the metric. */
  method ApplyRoute(kernel: Kernel, link: int, nlRoutes: seq<KRoute>, r: Route) returns (res: Outcome)
    requires kernel.Valid() && Plain(r) && SnapshotHolds(kernel.table, nlRoutes, link, DestOf(r.destination))
    modifies kernel`table, kernel`adds, kernel`refused
    ensures kernel.Valid() && OthersKept(old(kernel.table), kernel.table, link, {DestOf(r.destination)})
    ensures OnlyAdded(old(kernel.table), kernel.table, {Wanted(link, r)})
    ensures res == Configured ==>
      ExactlyOne(kernel.table, link, r) && WantedOrKept(old(kernel.table), kernel.table, link, r)
    ensures res == Configured || res == DeleteFailed || res == AddCollided || res == AddFailed
    ensures res == AddCollided ==> Taken(old(kernel.table), link, r) || Several(old(kernel.table), link, r)
    ensures res == Configured ==> !Taken(old(kernel.table), link, r) && !Several(old(kernel.table), link, r)
    ensures old(kernel.adds) <= kernel.adds && AddsOf(kernel.adds, |old(kernel.adds)|, old(kernel.table), link, r)
    ensures AsAnswered(res, link, {Wanted(link, r)}, old(kernel.refused), kernel.refused)
  {
    ghost var start := kernel.table;
    var found := false;
    LoopStarts(start, nlRoutes, link, r);
    for i := 0 to |nlRoutes|
      invariant kernel.Valid() && Midway(start, kernel.table, nlRoutes, link, r, i, found)
      invariant SingleSoFar(start, nlRoutes, r, i)
      invariant old(kernel.adds) <= kernel.adds && AddsOf(kernel.adds, |old(kernel.adds)|, start, link, r)
      invariant kernel.refused == old(kernel.refused)
    {
      ghost var adds := kernel.adds;
      res, found := Consider(kernel, link, nlRoutes, r, i, found, start);
      AddsJoin(adds, kernel.adds, |old(kernel.adds)|, start, link, r);
      if res != Configured {
        return;
      }
    }
    LoopEnds(start, kernel.table, nlRoutes, link, r, found);
    SingleEnds(start, nlRoutes, link, r);
    ghost var adds := kernel.adds;
    res := AddMissing(kernel, link, r, found, start);
    AddsJoin(adds, kernel.adds, |old(kernel.adds)|, start, link, r);
    if res == Configured {
      NotTaken(start, kernel.table, link, r);
    }
  }

  lemma AddsJoin(adds: seq<AddEvent>, adds': seq<AddEvent>, from: nat, start: Table, link: int, r: Route)
    requires from <= |adds| && adds <= adds' && AddsOf(adds, from, start, link, r)
    requires AddsOf(adds', |adds|, start, link, r)
    ensures AddsOf(adds', from, start, link, r)
  {
  }

  lemma NotTaken(start: Table, table: Table, link: int, r: Route)
    requires OthersKept(start, table, link, {DestOf(r.destination)}) && ExactlyOne(table, link, r)
    ensures !Taken(start, link, r)
  {
    assert HasRoute(table, link, Target(r));
  }
}
