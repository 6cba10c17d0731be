/**
 * What Allocate amounts to for kubelet, which hands back ids it was sent and pairs answers with
 * containers by position.
 */
module AllocationProperties {
  import opened Prelude
  import opened Text
  import opened DeviceIds
  import opened Allocation
  import HwAddr

  /** Every id of every request was advertised for one of the devices. */
  ghost predicate Issued(c: Config, requests: seq<Request>) {
    forall k, id | 0 <= k < |requests| && id in requests[k] :: IssuedId(c, id)
  }

  ghost predicate IssuedId(c: Config, id: string) {
    exists n, i: nat :: n in c.devices && i < SLOTS && id == DeviceId(n, i)
  }

  lemma {:induction false} FirstPart(s: string, c: char, t: string)
    ensures Split(s + [c] + t, c)[0] == Split(s, c)[0]
  {
    var whole := s + [c] + t;
    if s == "" {
      assert whole[1..] == t;
    } else {
      FirstPart(s[1..], c, t);
      assert whole[1..] == s[1..] + [c] + t;
    }
  }

  /** An issued id of device n leads Allocate to nil exactly when the part of n before a slash is no device. */
  lemma IssuedIdMisses(c: Config, n: string, i: nat)
    requires n in c.devices
    ensures Misses(c, [DeviceId(n, i)]) <==> !c.allocAll && Split(n, '/')[0] !in c.devices
  {
    IdRoundTrip(n, i);
    FirstPart(n, '/', Decimal(i));
    assert NameIn(DeviceId(n, i)) == Some(Split(n, '/')[0]);
    assert Names([DeviceId(n, i)]) == {Split(n, '/')[0]};
  }

  /** With device names free of slashes, a call made of issued ids never misses a device. */
  lemma IssuedNeverMiss(c: Config, requests: seq<Request>)
    requires Issued(c, requests)
    requires forall n :: n in c.devices ==> '/' !in n
    ensures !SomeMiss(c, requests)
  {
    forall k | 0 <= k < |requests|
      ensures Names(requests[k]) <= c.devices.Keys
    {
      forall id | id in requests[k] && NameIn(id).Some?
        ensures NameIn(id).value in c.devices
      {
        assert IssuedId(c, id);
        var n, i: nat :| n in c.devices && i < SLOTS && id == DeviceId(n, i);
        IdRoundTrip(n, i);
      }
    }
  }

  /**
   * Two containers given ids of one device, as kubelet may do with its 200 ids, leave the second one
   * empty-handed; with rdma_cm handed out that call dereferences nil, though every id was issued.
   */
  lemma SharedDeviceCrashes(c: Config, n: string, i: nat, j: nat)
    requires !c.allocAll && c.allocRdmaCM && n in c.devices && '/' !in n
    ensures !SomeMiss(c, [[DeviceId(n, i)], [DeviceId(n, j)]])
    ensures SomeEmptyHanded(c, [[DeviceId(n, i)], [DeviceId(n, j)]])
  {
    var requests := [[DeviceId(n, i)], [DeviceId(n, j)]];
    IdRoundTrip(n, i);
    IdRoundTrip(n, j);
    assert Names(requests[0]) == {n} && Names(requests[1]) == {n};
    assert Wants(c, requests, 0, n);
    assert EmptyHanded(c, requests, 1);
  }

  /** All devices to every container: the second container always comes away empty-handed. */
  lemma AllModeServesOne(c: Config, requests: seq<Request>)
    requires c.allocAll
    ensures SomeEmptyHanded(c, requests) <==> |requests| >= 2 || (|requests| == 1 && |c.devices| == 0)
  {
    if |requests| >= 2 {
      assert forall n :: Wants(c, requests, 1, n) ==> Wants(c, requests, 0, n);
      assert EmptyHanded(c, requests, 1);
    } else if |requests| == 1 {
      if |c.devices| == 0 {
        assert EmptyHanded(c, requests, 0);
      } else {
        var n :| n in c.devices;
        assert Wants(c, requests, 0, n) && !WantedBefore(c, requests, 0, n);
      }
    }
  }

  lemma EmptyGrants(c: Config, requests: seq<Request>, grants: seq<seq<string>>)
    requires IsGrants(c, requests, grants)
    ensures [] in grants <==> SomeEmptyHanded(c, requests)
  {
    forall k | 0 <= k < |requests|
      ensures grants[k] == [] <==> EmptyHanded(c, requests, k)
    {
      assert grants[..k] + [grants[k]] == grants[..k + 1];
      forall j | 0 <= j < k
        ensures IsGrant(c, requests[j], Taken(grants[..k][..j]), grants[..k][j])
      {
        assert grants[..k][..j] == grants[..j];
      }
      EmptyHandedMeans(c, requests, grants[..k], grants[k]);
    }
  }

  /**
   * The response answers container k at position k exactly when no container comes away empty-handed;
   * then each answer holds the container's own paths, and its pnet variable names one of its own devices.
   */
  lemma ResponseLinesUp(c: Config, requests: seq<Request>, grants: seq<seq<string>>, list: seq<ContainerResponse>)
    requires IsAllocation(c, requests, grants, list) && HavePaths(c.devices)
    requires c.allocRdmaCM ==> !SomeEmptyHanded(c, requests)
    ensures |list| == |requests| <==> !SomeEmptyHanded(c, requests)
    ensures |list| == |requests| ==> forall k :: 0 <= k < |list| ==> AnswersOwn(c, grants[k], list[k])
  {
    EmptyGrants(c, requests, grants);
    AnswersLineUp(c, grants, list);
    if |list| == |requests| {
      forall k | 0 <= k < |list|
        ensures AnswersOwn(c, grants[k], list[k])
      {
        assert AnswerTo(c, grants[k], list[k]);
        AnswerIsOwn(c, grants[k], list[k]);
      }
    }
  }

  ghost predicate OnesOwn(c: Config, grant: seq<string>, i: int, pnet: string) {
    0 <= i < |grant| && grant[i] in c.devices && pnet == HwAddr.PNetIDOf(c.devices[grant[i]].mac)
  }

  lemma AnswerIsOwn(c: Config, grant: seq<string>, a: ContainerResponse)
    requires Known(c, grant) && IsAnswer(c, grant, a)
    ensures AnswersOwn(c, grant, a)
  {
    assert Chosen(c, grant) in grant && Chosen(c, grant) in Elements(grant);
    forall n, path | n in grant && path in c.devices[n].devPaths
      ensures path in a.paths
    {
      var i :| 0 <= i < |grant| && grant[i] == n;
      BagRemove(PathsOf(c.devices), grant, i);
      assert path in multiset(c.devices[n].devPaths);
      assert path in multiset(a.paths);
    }
  }

  /** The answer holds the paths of the container's devices, each as often as they have it, and rdma_cm last when that
      is handed out; its pnet variable is that of the last device picked by id, or of the first one met. */
  ghost predicate AnswersOwn(c: Config, grant: seq<string>, a: ContainerResponse) {
    && Known(c, grant)
    && multiset(a.paths) == ExpectedPaths(c, grant)
    && (c.allocRdmaCM ==> a.paths != [] && a.paths[|a.paths| - 1] == "/dev/infiniband/rdma_cm")
    && (forall n, path | n in grant && path in c.devices[n].devPaths :: path in a.paths)
    && (exists n :: n in grant && n in c.devices && a.pnet == HwAddr.PNetIDOf(c.devices[n].mac))
    && (!c.allocAll ==> OnesOwn(c, grant, |grant| - 1, a.pnet))
    && (c.allocAll ==> OnesOwn(c, grant, 0, a.pnet))
  }

  /** The devices' MACs are printed addresses, no two devices alike. */
  ghost predicate DistinctMacs(devices: Devices, macs: map<string, HwAddr.Bytes>) {
    && devices.Keys <= macs.Keys
    && (forall n :: n in devices ==> devices[n].mac == HwAddr.Render(macs[n]))
    && (forall m, n :: m in devices && n in devices && macs[m] == macs[n] ==> m == n)
  }

  /** No two containers of a call are told the same pnet id. */
  lemma PnetIdsDiffer(c: Config, requests: seq<Request>, grants: seq<seq<string>>, list: seq<ContainerResponse>,
                      macs: map<string, HwAddr.Bytes>, j: nat, k: nat)
    requires IsAllocation(c, requests, grants, list) && HavePaths(c.devices) && DistinctMacs(c.devices, macs)
    requires !SomeEmptyHanded(c, requests) && j < k < |list|
    ensures list[j].pnet != list[k].pnet
  {
    ResponseLinesUp(c, requests, grants, list);
    assert AnswersOwn(c, grants[j], list[j]) && AnswersOwn(c, grants[k], list[k]);
    var m :| m in grants[j] && m in c.devices && list[j].pnet == HwAddr.PNetIDOf(c.devices[m].mac);
    var n :| n in grants[k] && n in c.devices && list[k].pnet == HwAddr.PNetIDOf(c.devices[n].mac);
    GrantsExclusive(c, requests, grants, j, k);
    assert m in Elements(grants[j]) && n in Elements(grants[k]);
    HwAddr.PNetIDNamesOneMac(macs[m], macs[n]);
  }
}
