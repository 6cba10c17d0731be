/** EnsureEriForInstance: drive every planned interface to attached and RDMA, and report one status row per interface
    that has something to report. */
module DeviceReconciler {
  import opened Prelude
  import opened EniTypes
  import opened CloudApi
  import opened Cloud
  import opened SelectEris

  datatype DeviceInfo = DeviceInfo(instance: string, mac: string, isPrimary: bool, id: EniId, card: int, queuePair: int)

  datatype DeviceState = Pending | Ready | Failed

  datatype DeviceStatus = DeviceStatus(id: EniId, state: DeviceState)

  datatype EnsureError = DescribeFailed | EniNotFound(id: EniId) | EniWithoutStatus(id: EniId)

  datatype ReconcileResult = Done | Requeue | Failure

  /** The device record: what was planned and what was last reported. */
  datatype Record = Record(spec: seq<DeviceInfo>, status: seq<DeviceStatus>)

  // ---------- One device ----------

  predicate IsReady(e: Eni) {
    e.status == Some(InUse) && IsRdma(e)
  }

  predicate NeedsAttach(d: DeviceInfo, e: Eni) {
    !d.isPrimary && e.status == Some(Available)
  }

  predicate NeedsConvert(d: DeviceInfo, e: Eni) {
    d.isPrimary && e.status == Some(InUse) && !IsRdma(e)
  }

  predicate Actionable(d: DeviceInfo, e: Eni) {
    NeedsAttach(d, e) || NeedsConvert(d, e)
  }

  /** The rows the three tests append for one device, given whether the call it makes succeeds. */
  function RowsOf(d: DeviceInfo, e: Eni, ok: bool): seq<DeviceStatus> {
    (if IsReady(e) then [DeviceStatus(d.id, Ready)] else [])
    + (if NeedsAttach(d, e) then [DeviceStatus(d.id, if ok then Pending else Failed)] else [])
    + (if NeedsConvert(d, e) then [DeviceStatus(d.id, if ok then Ready else Failed)] else [])
  }

  predicate Known(spec: seq<DeviceInfo>, seen: Enis) {
    forall d <- spec :: d.id in seen && seen[d.id].status.Some?
  }

  function Rows(spec: seq<DeviceInfo>, seen: Enis, ok: seq<bool>): seq<DeviceStatus>
    requires Known(spec, seen) && |ok| == |spec|
  {
    if spec == [] then []
    else
      var n := |spec| - 1;
      Rows(spec[..n], seen, ok[..n]) + RowsOf(spec[n], seen[spec[n].id], ok[n])
  }

  /** What a successful call leaves behind. */
  predicate Effect(d: DeviceInfo, seen: Enis, now: Enis, ok: bool)
    requires d.id in seen
  {
    ok ==>
      && (NeedsAttach(d, seen[d.id]) ==>
          d.id in now && now[d.id].status != Some(Available) && CardIndex(now[d.id]) == d.card)
      && (NeedsConvert(d, seen[d.id]) ==> d.id in now && IsRdma(now[d.id]))
  }

  /** A call that did not succeed was made for this device, and was refused. */
  ghost predicate Excused(d: DeviceInfo, e: Eni, ok: bool, refused: seq<Call>, from: nat) {
    !ok ==>
      && (NeedsAttach(d, e) ==> RefusedSince(refused, from, AttachCall(d.id)))
      && (NeedsConvert(d, e) ==> RefusedSince(refused, from, ModifyCall(d.id)))
  }

  /** What the rows say, test by test: an interface in use for RDMA is Ready; an attach that was accepted is Pending;
      a conversion that was accepted is Ready; a call that failed is Failed; and there is nothing else to report. */
  lemma RowsMean(d: DeviceInfo, e: Eni, ok: bool)
    ensures e.status == Some(InUse) && e.mode == HighPerformance ==> RowsOf(d, e, ok) == [DeviceStatus(d.id, Ready)]
    ensures !d.isPrimary && e.status == Some(Available) ==>
      RowsOf(d, e, ok) == [DeviceStatus(d.id, if ok then Pending else Failed)]
    ensures d.isPrimary && e.status == Some(InUse) && e.mode == Standard ==>
      RowsOf(d, e, ok) == [DeviceStatus(d.id, if ok then Ready else Failed)]
    ensures e.status == Some(Attaching) ==> RowsOf(d, e, ok) == []
    ensures d.isPrimary && e.status != Some(InUse) ==> RowsOf(d, e, ok) == []
    ensures !d.isPrimary && e.status == Some(InUse) && e.mode == Standard ==> RowsOf(d, e, ok) == []
  {}

  predicate PlannedAttach(d: DeviceInfo, ev: Event) {
    ev.AttachAccepted? && ev.id == d.id && ev.instance == d.instance && Reports(SentCard(d.card), ev.card)
  }

  /** Only a primary is ever converted, and to the queue-pair number of its device. */
  predicate PlannedMode(d: DeviceInfo, ev: Event) {
    d.isPrimary && ev == ModeChanged(d.id, d.queuePair)
  }

  function SpecIds(spec: seq<DeviceInfo>): set<EniId> {
    set d <- spec :: d.id
  }

  /** From position `from` on, a planned interface is only ever attached as some device of the spec says. */
  ghost predicate AsPlanned(spec: seq<DeviceInfo>, log: seq<Event>, from: nat) {
    forall i :: from <= i < |log| && log[i].AttachAccepted? && log[i].id in SpecIds(spec) ==>
      exists d :: d in spec && PlannedAttach(d, log[i])
  }

  /** From position `from` on, the mode of an interface in `left` is only ever changed as some device of the spec
      says. */
  ghost predicate ModesAsPlanned(spec: seq<DeviceInfo>, left: set<EniId>, log: seq<Event>, from: nat) {
    forall i :: from <= i < |log| && log[i].ModeChanged? && log[i].id in left ==>
      exists d :: d in spec && PlannedMode(d, log[i])
  }

  /** Everything since position `from` is as the spec says: attaches of its devices, conversions of what is `left`. */
  ghost predicate OnlyAsPlanned(spec: seq<DeviceInfo>, left: set<EniId>, log: seq<Event>, from: nat) {
    AsPlanned(spec, log, from) && ModesAsPlanned(spec, left, log, from)
  }

  lemma EffectLasts(d: DeviceInfo, seen: Enis, a: Enis, b: Enis, ok: bool)
    requires d.id in seen && Effect(d, seen, a, ok) && Evolves(a, b)
    ensures Effect(d, seen, b, ok)
  {
    if d.id in a {
      assert EniMoves(a[d.id], b[d.id]);
    }
  }

  // ---------- The Go code ----------

  method ConvertPrimaryENI(cloud: Cloud, id: EniId, instance: string, queuePair: int) returns (ok: bool)
    requires cloud.Valid() && id in cloud.enis
    modifies cloud
    ensures cloud.Valid() && old(cloud.log) <= cloud.log && Evolves(old(cloud.enis), cloud.enis)
    ensures ok ==> IsRdma(cloud.enis[id]) && cloud.enis[id].queuePairs == Some(queuePair)
    ensures NoAttach(cloud.log, |old(cloud.log)|) && ModesOnly(cloud.log, |old(cloud.log)|, id, queuePair)
    ensures !ok ==> cloud.refused == old(cloud.refused) + [ModifyCall(id)]
    ensures ok ==>
      || cloud.refused == old(cloud.refused) + [TagCall]
      || (cloud.refused == old(cloud.refused) && Labelled(cloud.enis[id], instance))
  {
    ok := cloud.ModifyNetworkInterfaceAttribute(id, queuePair);
    if ok {
      ghost var converted, log := cloud.enis, cloud.log;
      var _ := EnsureEriTags(cloud, [id], instance);
      EvolvesTransitive(old(cloud.enis), converted, cloud.enis);
      assert EniMoves(converted[id], cloud.enis[id]);
      assert ModesOnly(cloud.log, |log|, id, queuePair);
    }
  }

  /** The loop body for one device; `e` is what the listing said of it. */
  method EnsureDevice(cloud: Cloud, d: DeviceInfo, e: Eni) returns (rows: seq<DeviceStatus>, ghost ok: bool)
    requires cloud.Valid() && d.id in cloud.enis && e.id == d.id && EniMoves(e, cloud.enis[d.id])
    modifies cloud
    ensures cloud.Valid() && old(cloud.log) <= cloud.log && Evolves(old(cloud.enis), cloud.enis)
    ensures rows == RowsOf(d, e, ok) && Effect(d, map[d.id := e], cloud.enis, ok)
    ensures old(cloud.refused) <= cloud.refused && Excused(d, e, ok, cloud.refused, |old(cloud.refused)|)
    ensures NeedsAttach(d, e) ==> ok ==> cloud.refused == old(cloud.refused)
    ensures !Actionable(d, e) ==> cloud.refused == old(cloud.refused)
    ensures forall i :: |old(cloud.log)| <= i < |cloud.log| && cloud.log[i].AttachAccepted? ==>
      PlannedAttach(d, cloud.log[i])
    ensures forall i :: |old(cloud.log)| <= i < |cloud.log| && cloud.log[i].ModeChanged? ==>
      PlannedMode(d, cloud.log[i])
  {
    rows, ok := [], false;
    assert Evolves(cloud.enis, cloud.enis);
    if e.status == Some(InUse) && IsRdma(e) {
      rows := rows + [DeviceStatus(d.id, Ready)];
    }
    if !d.isPrimary && e.status == Some(Available) {
      var attached := cloud.AttachNetworkInterface(d.id, d.instance, SentCard(d.card));
      rows := rows + [DeviceStatus(d.id, if attached then Pending else Failed)];
      ok := attached;
      assert !ok ==> cloud.refused[|old(cloud.refused)|] == AttachCall(d.id);
    }
    if d.isPrimary && e.status == Some(InUse) && !IsRdma(e) {
      var converted := ConvertPrimaryENI(cloud, d.id, d.instance, d.queuePair);
      rows := rows + [DeviceStatus(d.id, if converted then Ready else Failed)];
      ok := converted;
      assert !ok ==> cloud.refused[|old(cloud.refused)|] == ModifyCall(d.id);
    }
  }

  /** Every device's listing entry and, where its call succeeded, the effect of that call. */
  ghost predicate Outcomes(devices: seq<DeviceInfo>, seen: Enis, now: Enis, ok: seq<bool>) {
    && Known(devices, seen) && |ok| == |devices|
    && forall k :: 0 <= k < |devices| ==> Effect(devices[k], seen, now, ok[k])
  }

  lemma OutcomesLast(devices: seq<DeviceInfo>, seen: Enis, a: Enis, b: Enis, ok: seq<bool>)
    requires Outcomes(devices, seen, a, ok) && Evolves(a, b)
    ensures Outcomes(devices, seen, b, ok)
  {
    forall k | 0 <= k < |devices|
      ensures Effect(devices[k], seen, b, ok[k])
    {
      EffectLasts(devices[k], seen, a, b, ok[k]);
    }
  }

  lemma OneMoreOutcome(devices: seq<DeviceInfo>, seen: Enis, now: Enis, ok: seq<bool>, done: bool, i: nat)
    requires i < |devices| && Outcomes(devices[..i], seen, now, ok)
    requires devices[i].id in seen && seen[devices[i].id].status.Some? && Effect(devices[i], seen, now, done)
    ensures Outcomes(devices[..i + 1], seen, now, ok + [done])
    ensures
      Rows(devices[..i + 1], seen, ok + [done]) ==
      Rows(devices[..i], seen, ok) + RowsOf(devices[i], seen[devices[i].id], done)
  {
    assert devices[..i + 1] == devices[..i] + [devices[i]];
    assert devices[..i + 1][..i] == devices[..i] && (ok + [done])[..i] == ok;
  }

  /** The call for one device, with whatever happens in the cloud before it. */
  method EnsureAmid(cloud: Cloud, d: DeviceInfo, e: Eni, ghost seen: Enis, ghost spec: seq<DeviceInfo>)
    returns (rows: seq<DeviceStatus>, ghost done: bool)
    requires d in spec
    requires cloud.Valid() && Evolves(seen, cloud.enis) && d.id in seen && seen[d.id] == e && e.id == d.id
    modifies cloud
    ensures cloud.Valid() && old(cloud.log) <= cloud.log && old(cloud.refused) <= cloud.refused
    ensures Evolves(seen, cloud.enis) && Evolves(old(cloud.enis), cloud.enis)
    ensures rows == RowsOf(d, e, done) && Effect(d, seen, cloud.enis, done)
    ensures Excused(d, e, done, cloud.refused, |old(cloud.refused)|)
    ensures OnlyAsPlanned(spec, cloud.left, cloud.log, |old(cloud.log)|)
  {
    cloud.Interference(SpecIds(spec));
    ghost var mid := cloud.enis;
    EvolvesTransitive(seen, old(cloud.enis), mid);
    assert EniMoves(seen[d.id], mid[d.id]);
    rows, done := EnsureDevice(cloud, d, e);
    EvolvesTransitive(seen, mid, cloud.enis);
    EvolvesTransitive(old(cloud.enis), mid, cloud.enis);
  }

  lemma PlannedJoins(spec: seq<DeviceInfo>, left: set<EniId>, log: seq<Event>, log': seq<Event>, from: nat)
    requires from <= |log| && log <= log'
    requires OnlyAsPlanned(spec, left, log, from) && OnlyAsPlanned(spec, left, log', |log|)
    ensures OnlyAsPlanned(spec, left, log', from)
  {}

  /** Every call that did not succeed was made and refused. */
  ghost predicate AllExcused(devices: seq<DeviceInfo>, seen: Enis, ok: seq<bool>, refused: seq<Call>, from: nat)
    requires |ok| <= |devices|
  {
    forall k :: 0 <= k < |ok| && devices[k].id in seen ==>
      Excused(devices[k], seen[devices[k].id], ok[k], refused, from)
  }

  lemma ExcusesJoin(devices: seq<DeviceInfo>, seen: Enis, ok: seq<bool>, done: bool, refused: seq<Call>,
                    refused': seq<Call>, from: nat)
    requires |ok| < |devices| && devices[|ok|].id in seen && from <= |refused| && refused <= refused'
    requires AllExcused(devices, seen, ok, refused, from)
    requires Excused(devices[|ok|], seen[devices[|ok|].id], done, refused', |refused|)
    ensures AllExcused(devices, seen, ok + [done], refused', from)
  {
    forall call | RefusedSince(refused, from, call)
      ensures RefusedSince(refused', from, call)
    {
      var i :| from <= i < |refused| && refused[i] == call;
      assert refused'[i] == call;
    }
    forall k | 0 <= k < |ok + [done]| && devices[k].id in seen
      ensures Excused(devices[k], seen[devices[k].id], (ok + [done])[k], refused', from)
    {
      assert k < |ok| ==> Excused(devices[k], seen[devices[k].id], ok[k], refused, from);
    }
  }

  /** The listing has every interface that fits on a page, as it was seen. */
  ghost predicate Answers(eniMap: Enis, seen: Enis, ids: set<EniId>) {
    && (forall id <- eniMap :: id in seen && eniMap[id] == seen[id] && seen[id].id == id)
    && (|ids| <= 100 ==> forall id <- ids :: id in seen ==> id in eniMap)
  }

  /** The listing of the planned interfaces, by id. */
  method DescribeDevices(cloud: Cloud, devices: seq<DeviceInfo>) returns (eniMap: Option<Enis>)
    requires cloud.Valid()
    modifies cloud`refused
    ensures cloud.Valid() && cloud.refused == old(cloud.refused) + if eniMap.Some? then [] else [DescribeCall]
    ensures eniMap.Some? ==> Answers(eniMap.value, cloud.enis, SpecIds(devices))
  {
    var ids := seq(|devices|, k requires 0 <= k < |devices| => devices[k].id);
    var page := cloud.Describe(ids);
    if page.None? {
      return None;
    }
    eniMap := Some(map e | e in page.value :: e.id := e);
    WantedFit(devices, ids, cloud.enis);
    ghost var wanted := set id | id in ids && id in cloud.enis;
    if |SpecIds(devices)| <= 100 {
      forall id | id in SpecIds(devices) && id in cloud.enis
        ensures id in eniMap.value
      {
        assert id in wanted && Lists(page.value, id);
        var k :| 0 <= k < |page.value| && page.value[k].id == id;
        assert page.value[k] in page.value;
      }
    }
  }

  lemma WantedFit(devices: seq<DeviceInfo>, ids: seq<EniId>, enis: Enis)
    requires |ids| == |devices| && forall k :: 0 <= k < |devices| ==> ids[k] == devices[k].id
    ensures forall id :: id in ids <==> id in SpecIds(devices)
    ensures |set id | id in ids && id in enis| <= |SpecIds(devices)|
  {
    forall id | id in SpecIds(devices)
      ensures id in ids
    {
      var d :| d in devices && d.id == id;
      var k :| 0 <= k < |devices| && devices[k] == d;
      assert ids[k] == id;
    }
    Fewer((set id | id in ids && id in enis), SpecIds(devices));
  }

  lemma {:induction false} Fewer(a: set<EniId>, b: set<EniId>)
    requires a <= b
    ensures |a| <= |b|
  {
    if a != {} {
      var x :| x in a;
      Fewer(a - {x}, b - {x});
    }
  }

  /** Which device the loop stopped at: the first that the listing does not have, or has without a status. One page
      of the listing can only miss an interface that exists if there are more than 100 to list. */
  ghost predicate StoppedAt(devices: seq<DeviceInfo>, seen: Enis, i: nat, error: EnsureError) {
    && i < |devices|
    && (error == EniNotFound(devices[i].id) || error == EniWithoutStatus(devices[i].id))
    && (error.EniNotFound? ==> devices[i].id !in seen || |SpecIds(devices)| > 100)
    && (error.EniWithoutStatus? ==> devices[i].id in seen && seen[devices[i].id].status == None)
  }

  /** Where the loop stands: the first devices are done, as their listing and their calls say. */
  ghost predicate EnsuredUpTo(devices: seq<DeviceInfo>, seen: Enis, now: Enis, ok: seq<bool>, i: nat,
                              refused: seq<Call>, from: nat) {
    && i <= |devices| && |ok| == i && Outcomes(devices[..i], seen, now, ok)
    && AllExcused(devices, seen, ok, refused, from)
  }

  /** One turn of the loop; `log0` and `refused0` are where the log and the refusals stood when the call began. */
  method EnsureNext(cloud: Cloud, devices: seq<DeviceInfo>, i: nat, e: Eni, ghost seen: Enis, ghost ok: seq<bool>,
                    ghost log0: nat, ghost refused0: nat)
    returns (rows: seq<DeviceStatus>, ghost done: bool)
    requires i < |devices| && cloud.Valid() && Evolves(seen, cloud.enis)
    requires devices[i].id in seen && seen[devices[i].id] == e && e.id == devices[i].id && e.status.Some?
    requires log0 <= |cloud.log| && OnlyAsPlanned(devices, cloud.left, cloud.log, log0)
    requires refused0 <= |cloud.refused|
    requires EnsuredUpTo(devices, seen, cloud.enis, ok, i, cloud.refused, refused0)
    modifies cloud
    ensures cloud.Valid() && old(cloud.log) <= cloud.log && old(cloud.refused) <= cloud.refused
    ensures Evolves(seen, cloud.enis) && OnlyAsPlanned(devices, cloud.left, cloud.log, log0)
    ensures EnsuredUpTo(devices, seen, cloud.enis, ok + [done], i + 1, cloud.refused, refused0)
    ensures Rows(devices[..i + 1], seen, ok + [done]) == Rows(devices[..i], seen, ok) + rows
  {
    rows, done := EnsureAmid(cloud, devices[i], e, seen, devices);
    PlannedJoins(devices, cloud.left, old(cloud.log), cloud.log, log0);
    ExcusesJoin(devices, seen, ok, done, old(cloud.refused), cloud.refused, refused0);
    OutcomesLast(devices[..i], seen, old(cloud.enis), cloud.enis, ok);
    OneMoreOutcome(devices, seen, cloud.enis, ok, done, i);
  }

  method EnsureEriForInstance(cloud: Cloud, devices: seq<DeviceInfo>)
    returns (r: Result<seq<DeviceStatus>, EnsureError>, ghost seen: Enis, ghost ok: seq<bool>)
    requires cloud.Valid()
    modifies cloud
    ensures cloud.Valid() && old(cloud.log) <= cloud.log && old(cloud.refused) <= cloud.refused
    ensures Evolves(old(cloud.enis), seen) && Evolves(seen, cloud.enis)
    ensures OnlyAsPlanned(devices, cloud.left, cloud.log, |old(cloud.log)|)
    ensures r.Ok? ==> Outcomes(devices, seen, cloud.enis, ok) && r.value == Rows(devices, seen, ok)
    ensures r == Err(DescribeFailed) ==> cloud.refused == old(cloud.refused) + [DescribeCall]
    ensures r != Err(DescribeFailed) ==>
      EnsuredUpTo(devices, seen, cloud.enis, ok, |ok|, cloud.refused, |old(cloud.refused)|)
    ensures r.Err? && r != Err(DescribeFailed) ==> StoppedAt(devices, seen, |ok|, r.error)
    ensures Known(devices, seen) && |SpecIds(devices)| <= 100 ==> r.Ok? || r == Err(DescribeFailed)
  {
    ok := [];
    cloud.Interference(SpecIds(devices));
    seen := cloud.enis;
    assert Evolves(seen, seen);
    var described := DescribeDevices(cloud, devices);
    if described.None? {
      return Err(DescribeFailed), seen, ok;
    }
    var eniMap := described.value;
    var devStatus: seq<DeviceStatus> := [];
    for i := 0 to |devices|
      invariant cloud.Valid() && old(cloud.log) <= cloud.log && Evolves(seen, cloud.enis)
      invariant old(cloud.refused) <= cloud.refused
      invariant OnlyAsPlanned(devices, cloud.left, cloud.log, |old(cloud.log)|)
      invariant EnsuredUpTo(devices, seen, cloud.enis, ok, i, cloud.refused, |old(cloud.refused)|)
      invariant devStatus == Rows(devices[..i], seen, ok)
    {
      var device := devices[i];
      if device.id !in eniMap {
        return Err(EniNotFound(device.id)), seen, ok;
      }
      var eniStatus := eniMap[device.id];
      if eniStatus.status == None {
        return Err(EniWithoutStatus(device.id)), seen, ok;
      }
      var rows;
      ghost var done;
      rows, done := EnsureNext(cloud, devices, i, eniStatus, seen, ok, |old(cloud.log)|, |old(cloud.refused)|);
      devStatus := devStatus + rows;
      ok := ok + [done];
    }
    assert devices[..|devices|] == devices;
    return Ok(devStatus), seen, ok;
  }
}
