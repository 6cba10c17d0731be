/**
 * The device plugin server (internal/deviceplugin/deviceplugin.go): building the device map, advertising
 * ids, and Allocate, with its shared map of occupied devices and its loops over Go maps in any order.
 */
module DevicePlugin {
  import opened Prelude
  import opened Text
  import opened DeviceIds
  import opened Allocation
  import HwAddr

  /** The map a list of devices builds: a later device replaces an earlier one of the same name. */
  function Indexed(listed: seq<Device>): Devices {
    if listed == [] then map[]
    else
      var last := listed[|listed| - 1];
      Indexed(listed[..|listed| - 1])[last.name := last]
  }

  lemma {:induction false} IndexedByName(listed: seq<Device>)
    ensures Keyed(Indexed(listed))
    ensures forall n :: n in Indexed(listed) <==> exists k :: 0 <= k < |listed| && listed[k].name == n
    ensures forall n :: n in Indexed(listed) ==> Indexed(listed)[n] in listed
  {
    if listed != [] {
      var init, last := listed[..|listed| - 1], listed[|listed| - 1];
      IndexedByName(init);
      assert listed == init + [last];
      forall n
        ensures n in Indexed(listed) <==> exists k :: 0 <= k < |listed| && listed[k].name == n
      {
        if exists k :: 0 <= k < |init| && init[k].name == n {
          var k :| 0 <= k < |init| && init[k].name == n;
          assert listed[k].name == n;
        }
        assert listed[|init|].name == last.name;
      }
    }
  }

  /** Of several devices of one name the last one in the list counts. */
  lemma {:induction false} LaterWins(listed: seq<Device>, k: nat)
    requires k < |listed| && forall j :: k < j < |listed| ==> listed[j].name != listed[k].name
    ensures listed[k].name in Indexed(listed) && Indexed(listed)[listed[k].name] == listed[k]
  {
    var init := listed[..|listed| - 1];
    if k < |init| {
      assert listed[|init|].name != listed[k].name;
      assert forall j :: 0 <= j < |init| ==> init[j] == listed[j];
      LaterWins(init, k);
    }
  }

  /** What serving one request leaves: the devices' paths, the device remembered, the occupied names. */
  ghost predicate Collected(c: Config, grant: seq<string>, devs: PathMap, info: Option<Device>) {
    && Known(c, grant)
    && devs.Keys == Elements(grant)
    && (forall n :: n in grant ==> n in c.devices && n in devs && devs[n] == c.devices[n].devPaths)
    && (info.None? <==> grant == [])
    && (grant != [] ==> Chosen(c, grant) in c.devices && info == Some(c.devices[Chosen(c, grant)]))
  }

  /** One more device handed to the container; the first or the last one is remembered. */
  lemma CollectedStep(c: Config, grant: seq<string>, devs: PathMap, info: Option<Device>, n: string)
    requires Collected(c, grant, devs, info) && n in c.devices && n !in grant
    ensures
      var d := c.devices[n];
      var kept := if c.allocAll && info.Some? then info else Some(d);
      Collected(c, grant + [n], devs[n := d.devPaths], kept)
  {
    assert Elements(grant + [n]) == Elements(grant) + {n};
    assert devs[n := c.devices[n].devPaths].Keys == devs.Keys + {n};
    if grant != [] {
      assert Chosen(c, grant) in grant;
    }
  }

  /** One more id of a request. */
  lemma NamesSnoc(req: Request, i: nat, taken: set<string>)
    requires i < |req|
    ensures
      var name := NameIn(req[i]);
      && Names(req[..i + 1]) == Names(req[..i]) + (if name.Some? then {name.value} else {})
      && Fresh(req[..i + 1], taken) ==
         if name.None? || name.value in taken || name.value in Fresh(req[..i], taken) then Fresh(req[..i], taken)
         else Fresh(req[..i], taken) + [name.value]
    ensures forall n :: Elements(Fresh(req[..i], taken) + [n]) == Elements(Fresh(req[..i], taken)) + {n}
    ensures Names(req[..i + 1]) <= Names(req)
  {
    assert req[..i + 1] == req[..i] + [req[i]] && req[..i + 1][..i] == req[..i];
  }

  // ---------- One turn of a loop over a Go map ----------

  lemma NextKey(keys: set<string>, left: set<string>, order: seq<string>, n: string)
    requires left <= keys && n in left && IsOrder(order, keys - left)
    ensures IsOrder(order + [n], keys - (left - {n}))
    ensures Elements(order) <= keys && Elements(order + [n]) <= keys
  {
    assert n !in Elements(order);
    Extended(order, n);
    assert keys - (left - {n}) == keys - left + {n};
  }

  lemma BagSnoc(paths: PathMap, order: seq<string>, n: string)
    requires Elements(order) <= paths.Keys && Elements(order + [n]) <= paths.Keys
    ensures n in paths && Bag(paths, order + [n]) == Bag(paths, order) + multiset(paths[n])
  {
    assert (order + [n])[..|order|] == order;
    assert (order + [n])[|order|] in Elements(order + [n]);
  }

  lemma ListingSnoc(devices: Devices, order: seq<string>, n: string)
    requires Elements(order) <= devices.Keys && Elements(order + [n]) <= devices.Keys
    ensures n in devices && ListingOf(devices, order + [n]) == ListingOf(devices, order) + Block(devices[n])
  {
    assert (order + [n])[..|order|] == order;
    assert (order + [n])[|order|] in Elements(order + [n]);
  }

  /** Every key outside left has been passed; those that were free are in the grant. */
  ghost predicate Passed(c: Config, left: set<string>, occupied: set<string>, occ: set<string>, grant: seq<string>,
                         devs: PathMap, info: Option<Device>) {
    && left <= c.devices.Keys && IsOrder(grant, c.devices.Keys - left - occupied)
    && occ == occupied + Elements(grant)
    && Collected(c, grant, devs, info)
  }

  lemma PassOccupied(c: Config, left: set<string>, occupied: set<string>, occ: set<string>, grant: seq<string>,
                     devs: PathMap, info: Option<Device>, n: string)
    requires Passed(c, left, occupied, occ, grant, devs, info) && n in left && n in occ
    ensures Passed(c, left - {n}, occupied, occ, grant, devs, info)
  {
    assert n !in Elements(grant);
    assert c.devices.Keys - (left - {n}) - occupied == c.devices.Keys - left - occupied;
  }

  lemma PassFree(c: Config, left: set<string>, occupied: set<string>, occ: set<string>, grant: seq<string>,
                 devs: PathMap, info: Option<Device>, n: string)
    requires c.allocAll && Passed(c, left, occupied, occ, grant, devs, info) && n in left && n !in occ
    ensures
      var d := c.devices[n];
      Passed(c, left - {n}, occupied, occ + {n}, grant + [n], devs[n := d.devPaths],
             if info.Some? then info else Some(d))
  {
    Extended(grant, n);
    CollectedStep(c, grant, devs, info, n);
    assert c.devices.Keys - (left - {n}) - occupied == c.devices.Keys - left - occupied + {n};
  }

  lemma PassedAll(c: Config, occupied: set<string>, occ: set<string>, grant: seq<string>, devs: PathMap,
                  info: Option<Device>)
    requires Passed(c, {}, occupied, occ, grant, devs, info) && occupied <= c.devices.Keys
    ensures IsOrder(grant, c.devices.Keys - occupied) && occ == c.devices.Keys && Collected(c, grant, devs, info)
  {
    assert c.devices.Keys - {} - occupied == c.devices.Keys - occupied;
  }

  lemma PassedNone(c: Config, occupied: set<string>)
    requires occupied <= c.devices.Keys
    ensures Passed(c, c.devices.Keys, occupied, occupied, [], map[], None)
  {
    NoElements([]);
  }

  class ERDMADevicePlugin {
    const devices: Devices
    const allocAllDevices: bool
    const allocRdmaCM: bool

    /** rdma_cm is handed out only where the host has it. */
    constructor (listed: seq<Device>, allocAllDevices: bool, allocRdmaCM: bool, hostHasRdmaCM: bool)
      ensures Valid() && Cfg() == Config(Indexed(listed), allocAllDevices, allocRdmaCM && hostHasRdmaCM)
    {
      var indexed: Devices := map[];
      for i := 0 to |listed|
        invariant indexed == Indexed(listed[..i])
      {
        assert listed[..i + 1][..i] == listed[..i];
        indexed := indexed[listed[i].name := listed[i]];
      }
      assert listed[..|listed|] == listed;
      IndexedByName(listed);
      this.devices := indexed;
      this.allocAllDevices := allocAllDevices;
      this.allocRdmaCM := allocRdmaCM && hostHasRdmaCM;
    }

    ghost predicate Valid() {
      Keyed(devices)
    }

    function Cfg(): Config {
      Config(devices, allocAllDevices, allocRdmaCM)
    }

    method ListAndWatch() returns (devs: seq<Advertised>)
      requires Valid()
      ensures IsListing(devices, devs)
    {
      devs := [];
      var left := devices.Keys;
      ghost var order: seq<string> := [];
      while left != {}
        invariant left <= devices.Keys && IsOrder(order, devices.Keys - left)
        invariant devs == ListingOf(devices, order)
        decreases |left|
      {
        var n :| n in left;
        NextKey(devices.Keys, left, order, n);
        ListingSnoc(devices, order, n);
        left := left - {n};
        order := order + [n];
        devs := AddSlots(devices[n], devs);
      }
    }

    /** The inner loop: the ids of one device. */
    method AddSlots(d: Device, before: seq<Advertised>) returns (devs: seq<Advertised>)
      ensures devs == before + Block(d)
    {
      devs := before;
      for i := 0 to SLOTS
        invariant devs == before + Block(d)[..i]
      {
        devs := devs + [Advertised(DeviceId(d.name, i), d.numa)];
      }
      assert Block(d)[..SLOTS] == Block(d);
    }

    /** The devices named by the ids of one request; ok is false where a name is no device. */
    method PickRequested(req: Request, occupied: set<string>)
      returns (ok: bool, devs: PathMap, info: Option<Device>, occ: set<string>, ghost grant: seq<string>)
      requires Valid() && !allocAllDevices && occupied <= devices.Keys
      ensures ok <==> !Misses(Cfg(), req)
      ensures ok ==>
        grant == Fresh(req, occupied) && occ == occupied + Elements(grant) && Collected(Cfg(), grant, devs, info)
    {
      ok, devs, info, occ, grant := true, map[], None, occupied, [];
      for i := 0 to |req|
        invariant grant == Fresh(req[..i], occupied) && occ == occupied + Elements(grant)
        invariant Names(req[..i]) <= devices.Keys
        invariant Collected(Cfg(), grant, devs, info)
      {
        NamesSnoc(req, i, occupied);
        var parts := Split(req[i], '/');
        if |parts| > 1 && parts[0] !in occ {
          if parts[0] !in devices {
            assert parts[0] in Names(req);
            ok := false;
            return;
          }
          CollectedStep(Cfg(), grant, devs, info, parts[0]);
          info := Some(devices[parts[0]]);
          devs := devs[parts[0] := devices[parts[0]].devPaths];
          occ := occ + {parts[0]};
          grant := grant + [parts[0]];
        }
      }
      assert req[..|req|] == req;
    }

    /** Every device that is not occupied, in whatever order the map yields them. */
    method PickAll(occupied: set<string>)
      returns (devs: PathMap, info: Option<Device>, occ: set<string>, ghost grant: seq<string>)
      requires Valid() && allocAllDevices && occupied <= devices.Keys
      ensures IsOrder(grant, devices.Keys - occupied) && occ == devices.Keys && Collected(Cfg(), grant, devs, info)
    {
      devs, info, occ, grant := map[], None, occupied, [];
      PassedNone(Cfg(), occupied);
      var left := devices.Keys;
      while left != {}
        invariant Passed(Cfg(), left, occupied, occ, grant, devs, info)
        decreases |left|
      {
        var n :| n in left;
        var dev := devices[n];
        assert dev.name == n;
        if dev.name !in occ {
          PassFree(Cfg(), left, occupied, occ, grant, devs, info, n);
          if info.None? {
            info := Some(dev);
          }
          devs := devs[dev.name := dev.devPaths];
          occ := occ + {dev.name};
          grant := grant + [n];
        } else {
          PassOccupied(Cfg(), left, occupied, occ, grant, devs, info, n);
        }
        left := left - {n};
      }
      PassedAll(Cfg(), occupied, occ, grant, devs, info);
    }

    /** lo.Values in any order, flattened. */
    method CollectPaths(devs: PathMap, ghost grant: seq<string>) returns (paths: seq<string>)
      requires NoDup(grant) && devs.Keys == Elements(grant)
      ensures multiset(paths) == Bag(devs, grant)
    {
      paths := [];
      var left := devs.Keys;
      ghost var order: seq<string> := [];
      while left != {}
        invariant left <= devs.Keys && IsOrder(order, devs.Keys - left)
        invariant multiset(paths) == Bag(devs, order)
        decreases |left|
      {
        var n :| n in left;
        NextKey(devs.Keys, left, order, n);
        BagSnoc(devs, order, n);
        left := left - {n};
        order := order + [n];
        paths := paths + devs[n];
      }
      BagOrder(devs, order, grant);
    }

    /** The answer to one container, or none if it has no path; ok is false where PNetIDFromDevice meets nil. */
    method AnswerOne(devs: PathMap, info: Option<Device>, ghost grant: seq<string>)
      returns (ok: bool, answer: Option<ContainerResponse>)
      requires Valid() && NoDup(grant) && Collected(Cfg(), grant, devs, info)
      ensures !ok <==> grant == [] && allocRdmaCM
      ensures ok ==> (answer.None? <==> ExpectedPaths(Cfg(), grant) == multiset{})
      ensures ok && answer.Some? ==> IsAnswer(Cfg(), grant, answer.value)
    {
      ok, answer := true, None;
      var paths := CollectPaths(devs, grant);
      BagAgrees(devs, PathsOf(devices), grant);
      if allocRdmaCM {
        paths := paths + [RDMA_CM];
      }
      assert multiset(paths) == ExpectedPaths(Cfg(), grant);
      if |paths| > 0 {
        assert paths[0] in multiset(paths);
        if info.None? {
          ok := false;
          return;
        }
        answer := Some(ContainerResponse(paths, HwAddr.PNetIDOf(info.value.mac)));
      }
    }

    /** One container: the devices it is granted, its answer if it has one, and the names now occupied. */
    method ServeOne(req: Request, occupied: set<string>)
      returns (ok: bool, answer: Option<ContainerResponse>, occ: set<string>, ghost grant: seq<string>)
      requires Valid() && occupied <= devices.Keys
      ensures ok ==> IsGrant(Cfg(), req, occupied, grant) && occ == occupied + Elements(grant)
      ensures ok ==> !Misses(Cfg(), req) && Known(Cfg(), grant) && !(allocRdmaCM && grant == [])
      ensures ok ==> (answer.None? <==> ExpectedPaths(Cfg(), grant) == multiset{})
      ensures ok && answer.Some? ==> IsAnswer(Cfg(), grant, answer.value)
      ensures !ok ==> Misses(Cfg(), req) || (allocRdmaCM && grant == [] && IsGrant(Cfg(), req, occupied, grant))
    {
      var devs, info := map[], None;
      answer := None;
      if !allocAllDevices {
        ok, devs, info, occ, grant := PickRequested(req, occupied);
        if !ok {
          return;
        }
      } else {
        devs, info, occ, grant := PickAll(occupied);
      }
      GrantMeans(Cfg(), req, occupied, grant);
      ok, answer := AnswerOne(devs, info, grant);
    }

    /** Allocate. The grants are the devices each container was given, in order. */
    method Allocate(requests: seq<Request>) returns (out: Outcome, ghost grants: seq<seq<string>>)
      requires Valid()
      ensures out.Crash? <==> SomeMiss(Cfg(), requests) || (allocRdmaCM && SomeEmptyHanded(Cfg(), requests))
      ensures out.Responses? ==> IsAllocation(Cfg(), requests, grants, out.list)
    {
      var list: seq<ContainerResponse> := [];
      var occupied: set<string> := {};
      grants := [];
      ghost var c := Cfg();
      for i := 0 to |requests|
        invariant |grants| == i && GrantsSoFar(c, requests, grants) && Answers(c, grants, list)
        invariant occupied == Taken(grants) <= devices.Keys
        invariant Unharmed(c, requests, i)
      {
        var ok, answer, occ, grant := ServeOne(requests[i], occupied);
        if !ok {
          HarmedAt(c, requests, grants, grant);
          return Crash, grants;
        }
        UnharmedStep(c, requests, grants, grant);
        ServedOne(c, requests, grants, grant);
        TakenSnoc(grants, grant);
        AnsweredOne(c, grants, grant, list, answer);
        if answer.Some? {
          list := list + [answer.value];
        }
        occupied, grants := occ, grants + [grant];
      }
      return Responses(list), grants;
    }
  }

  // ---------- One turn of Allocate's loop ----------

  /** Nothing among the first n requests runs into nil. */
  ghost predicate Unharmed(c: Config, requests: seq<Request>, n: nat)
    requires n <= |requests|
  {
    && (forall k | 0 <= k < n :: !Misses(c, requests[k]))
    && (c.allocRdmaCM ==> forall k | 0 <= k < n :: !EmptyHanded(c, requests, k))
  }

  lemma UnharmedStep(c: Config, requests: seq<Request>, grants: seq<seq<string>>, grant: seq<string>)
    requires GrantsSoFar(c, requests, grants) && |grants| < |requests| && Unharmed(c, requests, |grants|)
    requires IsGrant(c, requests[|grants|], Taken(grants), grant)
    requires !Misses(c, requests[|grants|]) && !(c.allocRdmaCM && grant == [])
    ensures Unharmed(c, requests, |grants| + 1)
  {
    EmptyHandedMeans(c, requests, grants, grant);
  }

  lemma HarmedAt(c: Config, requests: seq<Request>, grants: seq<seq<string>>, grant: seq<string>)
    requires GrantsSoFar(c, requests, grants) && |grants| < |requests|
    requires Misses(c, requests[|grants|]) ||
      (c.allocRdmaCM && grant == [] && IsGrant(c, requests[|grants|], Taken(grants), grant))
    ensures SomeMiss(c, requests) || (c.allocRdmaCM && SomeEmptyHanded(c, requests))
  {
    if !Misses(c, requests[|grants|]) {
      EmptyHandedMeans(c, requests, grants, grant);
    }
  }

  lemma SamePrefix(grants: seq<seq<string>>, grant: seq<string>, k: nat)
    requires k <= |grants|
    ensures (grants + [grant])[..k] == grants[..k]
    ensures k == |grants| ==> grants[..k] == grants
  {
  }

  lemma TakenSnoc(grants: seq<seq<string>>, grant: seq<string>)
    ensures Taken(grants + [grant]) == Taken(grants) + Elements(grant)
  {
    SamePrefix(grants, grant, |grants|);
  }

  lemma ServedOne(c: Config, requests: seq<Request>, grants: seq<seq<string>>, grant: seq<string>)
    requires GrantsSoFar(c, requests, grants) && |grants| < |requests|
    requires IsGrant(c, requests[|grants|], Taken(grants), grant)
    ensures GrantsSoFar(c, requests, grants + [grant])
  {
    var all := grants + [grant];
    forall k | 0 <= k < |all|
      ensures IsGrant(c, requests[k], Taken(all[..k]), all[k])
    {
      SamePrefix(grants, grant, k);
      if k < |grants| {
        assert IsGrant(c, requests[k], Taken(grants[..k]), grants[k]);
      }
    }
  }

  lemma AnsweredOne(c: Config, grants: seq<seq<string>>, grant: seq<string>, list: seq<ContainerResponse>,
                    answer: Option<ContainerResponse>)
    requires Answers(c, grants, list) && Known(c, grant)
    requires answer.None? <==> ExpectedPaths(c, grant) == multiset{}
    requires answer.Some? ==> IsAnswer(c, grant, answer.value)
    ensures Answers(c, grants + [grant], if answer.Some? then list + [answer.value] else list)
  {
    assert (grants + [grant])[..|grants|] == grants;
    if answer.Some? {
      assert (list + [answer.value])[..|list|] == list;
    }
  }
}
