/**
 * What one Allocate call means (internal/deviceplugin/deviceplugin.go): which container is granted which
 * device, what each container is answered, and when the call runs into a nil device.
 */
module Allocation {
  import opened Prelude
  import opened DeviceIds
  import HwAddr

  const RDMA_CM: string := "/dev/infiniband/rdma_cm"

  /** The fields Allocate reads; none changes once the plugin is built. */
  datatype Config = Config(devices: Devices, allocAll: bool, allocRdmaCM: bool)

  datatype ContainerResponse = ContainerResponse(paths: seq<string>, pnet: string)

  /** Crash is the nil dereference the Go code runs into. */
  datatype Outcome = Responses(list: seq<ContainerResponse>) | Crash

  type Request = seq<string>

  // ---------- Grants ----------

  function Names(req: Request): set<string> {
    set id | id in req && NameIn(id).Some? :: NameIn(id).value
  }

  /** The names a request asks for that are not taken, each once, in the order first mentioned. */
  function Fresh(req: Request, taken: set<string>): seq<string> {
    if req == [] then []
    else
      var before, name := Fresh(req[..|req| - 1], taken), NameIn(req[|req| - 1]);
      if name.None? || name.value in taken || name.value in before then before else before + [name.value]
  }

  function Taken(grants: seq<seq<string>>): set<string> {
    if grants == [] then {} else Taken(grants[..|grants| - 1]) + Elements(grants[|grants| - 1])
  }

  ghost predicate IsGrant(c: Config, req: Request, taken: set<string>, grant: seq<string>) {
    if c.allocAll then IsOrder(grant, c.devices.Keys - taken) else grant == Fresh(req, taken)
  }

  /** The devices granted to each container in turn, as the loop of Allocate hands them out. */
  ghost predicate IsGrants(c: Config, requests: seq<Request>, grants: seq<seq<string>>) {
    && |grants| == |requests|
    && forall k | 0 <= k < |grants| :: IsGrant(c, requests[k], Taken(grants[..k]), grants[k])
  }

  /** Container k asks for the device: by one of its ids, or always when every device is handed out. */
  ghost predicate Wants(c: Config, requests: seq<Request>, k: nat, n: string)
    requires k < |requests|
  {
    if c.allocAll then n in c.devices else n in Names(requests[k])
  }

  ghost predicate WantedBefore(c: Config, requests: seq<Request>, k: nat, n: string)
    requires k <= |requests|
  {
    exists j: nat :: j < k && Wants(c, requests, j, n)
  }

  lemma {:induction false} FreshNames(req: Request, taken: set<string>)
    ensures NoDup(Fresh(req, taken))
    ensures Elements(Fresh(req, taken)) == Names(req) - taken
  {
    if req != [] {
      var init, id := req[..|req| - 1], req[|req| - 1];
      FreshNames(init, taken);
      assert req == init + [id];
      assert Names(req) == Names(init) + (if NameIn(id).Some? then {NameIn(id).value} else {});
      if NameIn(id).Some? && NameIn(id).value !in Elements(Fresh(init, taken)) {
        Extended(Fresh(init, taken), NameIn(id).value);
      }
    }
  }

  lemma Extended(before: seq<string>, name: string)
    requires NoDup(before) && name !in Elements(before)
    ensures NoDup(before + [name])
    ensures Elements(before + [name]) == Elements(before) + {name}
  {
  }

  /** The containers of a call served so far. */
  ghost predicate GrantsSoFar(c: Config, requests: seq<Request>, grants: seq<seq<string>>) {
    && |grants| <= |requests|
    && forall k | 0 <= k < |grants| :: IsGrant(c, requests[k], Taken(grants[..k]), grants[k])
  }

  lemma {:induction false} TakenIsWanted(c: Config, requests: seq<Request>, grants: seq<seq<string>>, k: nat)
    requires GrantsSoFar(c, requests, grants) && k <= |grants|
    ensures forall n :: n in Taken(grants[..k]) <==> WantedBefore(c, requests, k, n)
  {
    if k > 0 {
      TakenIsWanted(c, requests, grants, k - 1);
      assert grants[..k][..k - 1] == grants[..k - 1];
      GrantMeans(c, requests[k - 1], Taken(grants[..k - 1]), grants[k - 1]);
      forall n
        ensures n in Taken(grants[..k]) <==> WantedBefore(c, requests, k, n)
      {
        WantedStep(c, requests, k, n);
        assert n in Elements(grants[k - 1]) <==> Wants(c, requests, k - 1, n) && n !in Taken(grants[..k - 1]);
      }
    }
  }

  lemma WantedStep(c: Config, requests: seq<Request>, k: nat, n: string)
    requires 0 < k <= |requests|
    ensures WantedBefore(c, requests, k, n) <==> WantedBefore(c, requests, k - 1, n) || Wants(c, requests, k - 1, n)
  {
  }

  lemma GrantMeans(c: Config, req: Request, taken: set<string>, grant: seq<string>)
    requires IsGrant(c, req, taken, grant)
    ensures NoDup(grant)
    ensures Elements(grant) == (if c.allocAll then c.devices.Keys else Names(req)) - taken
  {
    if !c.allocAll {
      FreshNames(req, taken);
    }
  }

  /** First come, first served: a container gets exactly what it wants and no container before it wanted. */
  lemma GrantsExact(c: Config, requests: seq<Request>, grants: seq<seq<string>>, k: nat, n: string)
    requires GrantsSoFar(c, requests, grants) && k < |grants|
    ensures n in grants[k] <==> Wants(c, requests, k, n) && !WantedBefore(c, requests, k, n)
    ensures NoDup(grants[k])
  {
    TakenIsWanted(c, requests, grants, k);
    GrantMeans(c, requests[k], Taken(grants[..k]), grants[k]);
    assert n in grants[k] <==> n in Elements(grants[k]);
  }

  /** No device goes to two containers. */
  lemma GrantsExclusive(c: Config, requests: seq<Request>, grants: seq<seq<string>>, j: nat, k: nat)
    requires IsGrants(c, requests, grants) && j < k < |grants|
    ensures Elements(grants[j]) !! Elements(grants[k])
  {
    forall n | n in grants[j]
      ensures n !in grants[k]
    {
      GrantsExact(c, requests, grants, j, n);
      GrantsExact(c, requests, grants, k, n);
    }
  }

  function Asked(requests: seq<Request>): set<string> {
    set k, n | 0 <= k < |requests| && n in Names(requests[k]) :: n
  }

  /** Conservation: what is granted in all is what was asked for, or every device. */
  lemma GrantsConserve(c: Config, requests: seq<Request>, grants: seq<seq<string>>)
    requires IsGrants(c, requests, grants)
    ensures !c.allocAll ==> Taken(grants) == Asked(requests)
    ensures c.allocAll && requests != [] ==> Taken(grants) == c.devices.Keys
  {
    TakenIsWanted(c, requests, grants, |grants|);
    assert grants[..|grants|] == grants;
    if c.allocAll && requests != [] {
      assert forall n :: n in c.devices ==> Wants(c, requests, 0, n);
    } else if !c.allocAll {
      forall n
        ensures n in Asked(requests) <==> WantedBefore(c, requests, |requests|, n)
      {
        if n in Asked(requests) {
          var k :| 0 <= k < |requests| && n in Names(requests[k]);
          assert Wants(c, requests, k, n);
        }
      }
    }
  }

  // ---------- Running into nil ----------

  ghost predicate Misses(c: Config, req: Request) {
    !c.allocAll && !(Names(req) <= c.devices.Keys)
  }

  /** Everything container k wants went to containers before it. */
  ghost predicate EmptyHanded(c: Config, requests: seq<Request>, k: nat)
    requires k < |requests|
  {
    forall n :: Wants(c, requests, k, n) ==> WantedBefore(c, requests, k, n)
  }

  ghost predicate SomeMiss(c: Config, requests: seq<Request>) {
    exists k | 0 <= k < |requests| :: Misses(c, requests[k])
  }

  ghost predicate SomeEmptyHanded(c: Config, requests: seq<Request>) {
    exists k | 0 <= k < |requests| :: EmptyHanded(c, requests, k)
  }

  lemma EmptyHandedMeans(c: Config, requests: seq<Request>, grants: seq<seq<string>>, grant: seq<string>)
    requires GrantsSoFar(c, requests, grants) && |grants| < |requests|
    requires IsGrant(c, requests[|grants|], Taken(grants), grant)
    ensures grant == [] <==> EmptyHanded(c, requests, |grants|)
  {
    var k := |grants|;
    TakenIsWanted(c, requests, grants, k);
    assert grants[..k] == grants;
    GrantMeans(c, requests[k], Taken(grants), grant);
    assert forall n :: n in Elements(grant) <==> Wants(c, requests, k, n) && !WantedBefore(c, requests, k, n);
    if grant != [] {
      assert grant[0] in Elements(grant);
    }
  }

  // ---------- Answers ----------

  type PathMap = map<string, seq<string>>

  function PathsOf(devices: Devices): PathMap {
    map n | n in devices :: devices[n].devPaths
  }

  /** Every path of every device listed, with multiplicity. */
  function Bag(paths: PathMap, order: seq<string>): multiset<string>
    requires Elements(order) <= paths.Keys
  {
    if order == [] then multiset{}
    else
      var init, last := order[..|order| - 1], order[|order| - 1];
      assert last in Elements(order);
      assert Elements(init) <= Elements(order);
      Bag(paths, init) + multiset(paths[last])
  }

  lemma {:induction false} BagRemove(paths: PathMap, order: seq<string>, i: nat)
    requires Elements(order) <= paths.Keys && i < |order|
    ensures order[i] in Elements(order)
    ensures Elements(order[..i] + order[i + 1..]) <= paths.Keys
    ensures Bag(paths, order) == Bag(paths, order[..i] + order[i + 1..]) + multiset(paths[order[i]])
  {
    var init := order[..|order| - 1];
    var rest := order[..i] + order[i + 1..];
    assert order[i] in order;
    assert Elements(rest) <= Elements(order);
    if i == |order| - 1 {
      assert rest == init;
    } else {
      assert Elements(init) <= Elements(order);
      BagRemove(paths, init, i);
      assert rest[..|rest| - 1] == init[..i] + init[i + 1..];
    }
  }

  lemma NoElements(s: seq<string>)
    ensures Elements(s) == {} <==> s == []
  {
    if s != [] {
      assert s[0] in Elements(s);
    }
  }

  /** The order of iteration does not show in the paths. */
  lemma {:induction false} BagOrder(paths: PathMap, a: seq<string>, b: seq<string>)
    requires NoDup(a) && NoDup(b) && Elements(a) == Elements(b) <= paths.Keys
    ensures Bag(paths, a) == Bag(paths, b)
  {
    if a == [] {
      NoElements(b);
    } else {
      var init, last := a[..|a| - 1], a[|a| - 1];
      assert last in Elements(a);
      var i: nat :| i < |b| && b[i] == last;
      BagRemove(paths, b, i);
      WithoutLast(a, b, i);
      BagOrder(paths, init, b[..i] + b[i + 1..]);
    }
  }

  lemma WithoutLast(a: seq<string>, b: seq<string>, i: nat)
    requires NoDup(a) && NoDup(b) && Elements(a) == Elements(b) && a != [] && i < |b| && b[i] == a[|a| - 1]
    ensures NoDup(a[..|a| - 1]) && NoDup(b[..i] + b[i + 1..])
    ensures Elements(a[..|a| - 1]) == Elements(b[..i] + b[i + 1..])
  {
    var x := a[|a| - 1];
    assert a == a[..|a| - 1] + [x];
    assert Elements(a[..|a| - 1]) == Elements(a) - {x};
    assert b == b[..i] + [x] + b[i + 1..];
    assert Elements(b[..i] + b[i + 1..]) == Elements(b) - {x};
  }

  lemma {:induction false} BagAgrees(x: PathMap, y: PathMap, order: seq<string>)
    requires Elements(order) <= x.Keys && Elements(order) <= y.Keys
    requires forall n :: n in order ==> x[n] == y[n]
    ensures Bag(x, order) == Bag(y, order)
  {
    if order != [] {
      assert Elements(order[..|order| - 1]) <= Elements(order);
      assert order[|order| - 1] in order;
      BagAgrees(x, y, order[..|order| - 1]);
    }
  }

  ghost predicate Known(c: Config, grant: seq<string>) {
    Elements(grant) <= c.devices.Keys
  }

  /** The device paths of the grant, then rdma_cm when that is handed out. */
  function ExpectedPaths(c: Config, grant: seq<string>): multiset<string>
    requires Elements(grant) <= c.devices.Keys
  {
    Bag(PathsOf(c.devices), grant) + if c.allocRdmaCM then multiset{RDMA_CM} else multiset{}
  }

  /** The device the pnet variable names: the last one picked by id, the first one met otherwise. */
  function Chosen(c: Config, grant: seq<string>): string
    requires grant != []
  {
    if c.allocAll then grant[0] else grant[|grant| - 1]
  }

  ghost predicate IsAnswer(c: Config, grant: seq<string>, a: ContainerResponse)
    requires Known(c, grant)
  {
    && grant != []
    && multiset(a.paths) == ExpectedPaths(c, grant)
    && (c.allocRdmaCM ==> a.paths != [] && a.paths[|a.paths| - 1] == RDMA_CM)
    && (assert Chosen(c, grant) in Elements(grant); a.pnet == HwAddr.PNetIDOf(c.devices[Chosen(c, grant)].mac))
  }

  /** A container without a single path is passed over: it leaves no entry in the response. */
  ghost predicate Answers(c: Config, grants: seq<seq<string>>, list: seq<ContainerResponse>) {
    if grants == [] then list == []
    else
      var before, grant := grants[..|grants| - 1], grants[|grants| - 1];
      && Known(c, grant)
      && if ExpectedPaths(c, grant) == multiset{} then Answers(c, before, list)
         else list != [] && IsAnswer(c, grant, list[|list| - 1]) && Answers(c, before, list[..|list| - 1])
  }

  ghost predicate IsAllocation(c: Config, requests: seq<Request>, grants: seq<seq<string>>,
                               list: seq<ContainerResponse>) {
    IsGrants(c, requests, grants) && Answers(c, grants, list)
  }

  predicate HavePaths(devices: Devices) {
    forall n :: n in devices ==> devices[n].devPaths != []
  }

  lemma SilentMeans(c: Config, grant: seq<string>)
    requires Known(c, grant) && HavePaths(c.devices)
    ensures ExpectedPaths(c, grant) == multiset{} <==> grant == [] && !c.allocRdmaCM
  {
    if grant != [] {
      var last := grant[|grant| - 1];
      assert last in Elements(grant);
      var paths := c.devices[last].devPaths;
      assert paths[0] in multiset(paths);
      assert paths[0] in Bag(PathsOf(c.devices), grant);
    }
  }

  /** There is at most one answer for each container, and one for each exactly when nobody is passed over. */
  lemma {:induction false} AnswersCount(c: Config, grants: seq<seq<string>>, list: seq<ContainerResponse>)
    requires Answers(c, grants, list) && HavePaths(c.devices)
    ensures |list| <= |grants|
    ensures |list| == |grants| <==> c.allocRdmaCM || [] !in grants
  {
    if grants != [] {
      var before, grant := grants[..|grants| - 1], grants[|grants| - 1];
      SilentMeans(c, grant);
      AnswersCount(c, before, if ExpectedPaths(c, grant) == multiset{} then list else list[..|list| - 1]);
      assert grants == before + [grant];
      assert [] in grants <==> [] in before || grant == [];
    }
  }

  /** The response answers the container with this grant. */
  ghost predicate AnswerTo(c: Config, grant: seq<string>, a: ContainerResponse) {
    Known(c, grant) && IsAnswer(c, grant, a)
  }

  lemma {:induction false} AnswersPair(c: Config, grants: seq<seq<string>>, list: seq<ContainerResponse>, k: nat)
    requires Answers(c, grants, list) && HavePaths(c.devices) && |list| == |grants| && k < |grants|
    ensures AnswerTo(c, grants[k], list[k])
  {
    AnswersLast(c, grants, list);
    var n := |grants| - 1;
    if k < n {
      AnswersPair(c, grants[..n], list[..n], k);
      assert grants[..n][k] == grants[k] && list[..n][k] == list[k];
    }
  }

  lemma AnswersLast(c: Config, grants: seq<seq<string>>, list: seq<ContainerResponse>)
    requires Answers(c, grants, list) && HavePaths(c.devices) && |list| == |grants| && grants != []
    ensures var n := |grants| - 1; AnswerTo(c, grants[n], list[n]) && Answers(c, grants[..n], list[..n])
  {
    var n := |grants| - 1;
    if ExpectedPaths(c, grants[n]) == multiset{} {
      AnswersCount(c, grants[..n], list);
    }
  }

  /** kubelet pairs answers with containers by position: that is right exactly when nobody is passed over. */
  lemma AnswersLineUp(c: Config, grants: seq<seq<string>>, list: seq<ContainerResponse>)
    requires Answers(c, grants, list) && HavePaths(c.devices)
    ensures |list| <= |grants|
    ensures |list| == |grants| <==> c.allocRdmaCM || [] !in grants
    ensures |list| == |grants| ==> forall k :: 0 <= k < |list| ==> AnswerTo(c, grants[k], list[k])
  {
    AnswersCount(c, grants, list);
    if |list| == |grants| {
      forall k | 0 <= k < |list|
        ensures AnswerTo(c, grants[k], list[k])
      {
        AnswersPair(c, grants, list, k);
      }
    }
  }
}
