/** ERdmaDeviceReconciler.Reconcile as a step, and what holds over every run of reconciles and cloud moves. */
module DeviceRuns {
  import opened Prelude
  import opened EniTypes
  import opened CloudApi
  import opened Cloud
  import opened DeviceReconciler

  // ---------- Reconcile ----------

  predicate AllReady(rows: seq<DeviceStatus>) {
    forall row <- rows :: row.state == Ready
  }

  /** The record claims that everything is done: as many rows as devices, all of them Ready. */
  predicate ShortCircuits(cr: Record) {
    |cr.spec| == |cr.status| && AllReady(cr.status)
  }

  /** A call to the API server about a record. */
  datatype StoreCall = GetRecord | UpdateRecord | CreateRecord

  /** The device record in the API server. */
  class RecordStore {
    var cr: Option<Record>
    /** The calls that were answered with an error. */
    ghost var refused: seq<StoreCall>

    constructor (cr: Option<Record>)
      ensures this.cr == cr && refused == []
    {
      this.cr, refused := cr, [];
    }

    /** A record that is not there is an answer, not an error. */
    method Get() returns (ok: bool, r: Option<Record>)
      modifies `refused
      ensures refused == old(refused) + if ok then [] else [GetRecord]
      ensures ok ==> r == cr
    {
      ok, r := *, cr;
      if !ok {
        refused := refused + [GetRecord];
      }
    }

    /** The status update may be refused; then the stored rows stay as they were. */
    method UpdateStatus(rows: seq<DeviceStatus>) returns (ok: bool)
      requires cr.Some?
      modifies this
      ensures cr == if ok then Some(old(cr).value.(status := rows)) else old(cr)
      ensures refused == old(refused) + if ok then [] else [UpdateRecord]
    {
      ok := *;
      if ok {
        cr := Some(cr.value.(status := rows));
      } else {
        refused := refused + [UpdateRecord];
      }
    }

    method Create(record: Record) returns (ok: bool)
      requires cr.None?
      modifies this
      ensures cr == if ok then Some(record) else None
      ensures refused == old(refused) + if ok then [] else [CreateRecord]
    {
      ok := *;
      if ok {
        cr := Some(record);
      } else {
        refused := refused + [CreateRecord];
      }
    }
  }

  /** One reconcile that got as far as the status update: it saw `seen`, its calls came out as `ok`. */
  ghost predicate Step(before: Enis, after: Enis, cr: Record, next: Record, seen: Enis, ok: seq<bool>, stored: bool) {
    && Evolves(before, seen) && Evolves(seen, after) && Outcomes(cr.spec, seen, after, ok)
    && next == if stored then cr.(status := Rows(cr.spec, seen, ok)) else cr
  }

  /** `stepped` says that the reconcile got as far as the status update; `error` is what kept it from there. It fails
      only where the record could not be read, its interfaces could not be listed or looked up, or the update was
      refused; and every call that failed on the way was made and refused. */
  method Reconcile(cloud: Cloud, store: RecordStore)
    returns (result: ReconcileResult, ghost seen: Enis, ghost ok: seq<bool>, ghost stepped: bool,
             ghost error: Option<EnsureError>)
    requires cloud.Valid()
    modifies cloud, store
    ensures cloud.Valid() && old(cloud.log) <= cloud.log && Evolves(old(cloud.enis), cloud.enis)
    ensures old(store.cr).None? ==> store.cr.None? && cloud.log == old(cloud.log)
    ensures old(store.cr).Some? ==>
      store.cr.Some? && OnlyAsPlanned(store.cr.value.spec, cloud.left, cloud.log, |old(cloud.log)|)
    ensures stepped ==>
      && old(store.cr).Some? && !ShortCircuits(old(store.cr).value)
      && Step(old(cloud.enis), cloud.enis, old(store.cr).value, store.cr.value, seen, ok, result != Failure)
      && AllExcused(old(store.cr).value.spec, seen, ok, cloud.refused, |old(cloud.refused)|)
    ensures !stepped ==> store.cr == old(store.cr)
    ensures result == Requeue ==> stepped && !AllReady(store.cr.value.status)
    ensures result == Done && stepped ==> AllReady(store.cr.value.status)
    ensures result == Done && !stepped ==>
      cloud.log == old(cloud.log) && (store.cr.Some? ==> ShortCircuits(store.cr.value))
    ensures result == Failure ==>
      if stepped then store.refused == old(store.refused) + [UpdateRecord]
      else if error.None? then store.refused == old(store.refused) + [GetRecord] && cloud.log == old(cloud.log)
      else
        && old(store.cr).Some?
        && Stopped(old(store.cr).value.spec, seen, ok, error.value, cloud.refused, old(cloud.refused))
    ensures result != Failure ==> error.None? && store.refused == old(store.refused)
    ensures old(store.cr).Some? && error.Some? && |SpecIds(old(store.cr).value.spec)| <= 100 ==>
      error == Some(DescribeFailed) || !Known(old(store.cr).value.spec, seen)
  {
    seen, ok, stepped, error := cloud.enis, [], false, None;
    assert Evolves(cloud.enis, cloud.enis);
    var got, cr := store.Get();
    if !got {
      return Failure, seen, ok, false, None;
    }
    if cr.None? {
      return Done, seen, ok, false, None;
    }
    var device := cr.value;
    if |device.spec| == |device.status| {
      var eriNeedConfig := exists item :: item in device.status && item.state != Ready;
      if !eriNeedConfig {
        return Done, seen, ok, false, None;
      }
    }
    var eriStatus;
    eriStatus, seen, ok := EnsureEriForInstance(cloud, device.spec);
    EvolvesTransitive(old(cloud.enis), seen, cloud.enis);
    if eriStatus.Err? {
      return Failure, seen, ok, false, Some(eriStatus.error);
    }
    var updated := store.UpdateStatus(eriStatus.value);
    if !updated {
      return Failure, seen, ok, true, None;
    }
    if exists item :: item in eriStatus.value && item.state != Ready {
      return Requeue, seen, ok, true, None;
    }
    return Done, seen, ok, true, None;
  }

  /** What the error of a reconcile means: the listing was refused, or the listing lacks a device of the spec. */
  ghost predicate Stopped(spec: seq<DeviceInfo>, seen: Enis, ok: seq<bool>, error: EnsureError, refused: seq<Call>,
                          before: seq<Call>) {
    if error == DescribeFailed then refused == before + [DescribeCall]
    else StoppedAt(spec, seen, |ok|, error) && AllExcused(spec, seen, ok, refused, |before|)
  }

  // ---------- Rows ----------

  ghost predicate Follows(rows: seq<DeviceStatus>, spec: seq<DeviceInfo>)
    decreases |spec|
  {
    rows == [] ||
    (spec != [] &&
     var r, d := |rows| - 1, |spec| - 1;
     (rows[r].id == spec[d].id && Follows(rows[..r], spec[..d])) || Follows(rows, spec[..d]))
  }

  lemma FollowsSnoc(rows: seq<DeviceStatus>, spec: seq<DeviceInfo>, more: seq<DeviceStatus>)
    requires spec != [] && Follows(rows, spec[..|spec| - 1]) && |more| <= 1
    requires forall row <- more :: row.id == spec[|spec| - 1].id
    ensures Follows(rows + more, spec)
  {
    if more == [] {
      assert rows + more == rows;
    } else {
      assert more[0] in more && (rows + more)[..|rows|] == rows;
    }
  }

  /** The status ids are an order-preserving subsequence of the spec ids. */
  lemma {:induction false} RowsFollow(spec: seq<DeviceInfo>, seen: Enis, ok: seq<bool>)
    requires Known(spec, seen) && |ok| == |spec|
    ensures Follows(Rows(spec, seen, ok), spec)
  {
    if spec != [] {
      var n := |spec| - 1;
      RowsFollow(spec[..n], seen, ok[..n]);
      FollowsSnoc(Rows(spec[..n], seen, ok[..n]), spec, RowsOf(spec[n], seen[spec[n].id], ok[n]));
    }
  }

  lemma {:induction false} FollowsShort(rows: seq<DeviceStatus>, spec: seq<DeviceInfo>)
    requires Follows(rows, spec)
    ensures |rows| <= |spec|
    ensures |rows| == |spec| ==> forall k :: 0 <= k < |spec| ==> rows[k].id == spec[k].id
    decreases |spec|
  {
    if rows != [] {
      var r, d := |rows| - 1, |spec| - 1;
      if rows[r].id == spec[d].id && Follows(rows[..r], spec[..d]) {
        FollowsShort(rows[..r], spec[..d]);
        if |rows| == |spec| {
          forall k | 0 <= k < |spec|
            ensures rows[k].id == spec[k].id
          {
            assert k < r ==> rows[k] == rows[..r][k] && spec[k] == spec[..d][k];
          }
        }
      } else {
        FollowsShort(rows, spec[..d]);
      }
    }
  }

  /** At most one of the three branches fires; a planned interface that is Available or InUse, the primary InUse,
      makes exactly one fire. */
  lemma BranchesExclusive(d: DeviceInfo, e: Eni, ok: bool)
    ensures |RowsOf(d, e, ok)| <= 1
    ensures |RowsOf(d, e, ok)| == 0 <==>
      || e.status == None || e.status == Some(Attaching) || e.status == Some(OtherStatus)
      || (e.status == Some(Available) && d.isPrimary)
      || (e.status == Some(InUse) && !IsRdma(e) && !d.isPrimary)
  {
    match e.status
    case None =>
    case Some(s) =>
      match s
      case Available =>
      case Attaching =>
      case InUse =>
      case OtherStatus =>
  }

  /** Device k makes the reconciler come back: an attach was called, or a conversion failed. */
  ghost predicate Unsettled(spec: seq<DeviceInfo>, seen: Enis, ok: seq<bool>, k: nat)
    requires k < |spec| == |ok| && Known(spec, seen)
  {
    NeedsAttach(spec[k], seen[spec[k].id]) || (NeedsConvert(spec[k], seen[spec[k].id]) && !ok[k])
  }

  /** When a stored status is requeued. An Attaching device leaves no row: alone it neither makes the reconciler come
      back nor lets it short-circuit, so an unfinished record may be waiting for another event. */
  lemma {:induction false} RequeueExactly(spec: seq<DeviceInfo>, seen: Enis, ok: seq<bool>)
    requires Known(spec, seen) && |ok| == |spec|
    ensures !AllReady(Rows(spec, seen, ok)) <==> exists k :: 0 <= k < |spec| && Unsettled(spec, seen, ok, k)
  {
    if spec != [] {
      var n := |spec| - 1;
      RequeueExactly(spec[..n], seen, ok[..n]);
      RowsOfReady(spec[n], seen[spec[n].id], ok[n]);
      AllReadyJoins(Rows(spec[..n], seen, ok[..n]), RowsOf(spec[n], seen[spec[n].id], ok[n]));
      SomeUnsettled(spec, seen, ok);
    }
  }

  lemma SomeUnsettled(spec: seq<DeviceInfo>, seen: Enis, ok: seq<bool>)
    requires spec != [] && Known(spec, seen) && |ok| == |spec|
    ensures
      var n := |spec| - 1;
      (exists k :: 0 <= k < |spec| && Unsettled(spec, seen, ok, k)) <==>
        (exists k :: 0 <= k < n && Unsettled(spec[..n], seen, ok[..n], k)) || Unsettled(spec, seen, ok, n)
  {
    var n := |spec| - 1;
    if k :| 0 <= k < n && Unsettled(spec[..n], seen, ok[..n], k) {
      assert Unsettled(spec, seen, ok, k);
    }
    if k :| 0 <= k < |spec| && Unsettled(spec, seen, ok, k) {
      assert k < n ==> Unsettled(spec[..n], seen, ok[..n], k);
    }
  }

  lemma RowsOfReady(d: DeviceInfo, e: Eni, ok: bool)
    ensures AllReady(RowsOf(d, e, ok)) <==> !(NeedsAttach(d, e) || (NeedsConvert(d, e) && !ok))
  {
    var rows := RowsOf(d, e, ok);
    assert forall row :: row in rows ==> row == rows[0];
    assert rows == [] || rows[0] in rows;
  }

  lemma AllReadyJoins(a: seq<DeviceStatus>, b: seq<DeviceStatus>)
    ensures AllReady(a + b) <==> AllReady(a) && AllReady(b)
  {
    assert forall row :: row in a + b <==> row in a || row in b;
  }

  // ---------- Ready soundness over every run ----------

  datatype World = World(enis: Enis, cr: Record)

  datatype Move = CloudMoves | Reconciled(seen: Enis, ok: seq<bool>, stored: bool)

  /** The cloud moves forward (this covers reconciles that fail before the status update), or a reconcile runs. */
  ghost predicate Next(w: World, m: Move, w': World) {
    match m
    case CloudMoves => Evolves(w.enis, w'.enis) && w'.cr == w.cr
    case Reconciled(seen, ok, stored) => !ShortCircuits(w.cr) && Step(w.enis, w'.enis, w.cr, w'.cr, seen, ok, stored)
  }

  ghost predicate IsRun(run: seq<World>, moves: seq<Move>) {
    |run| == |moves| + 1 && forall i :: 0 <= i < |moves| ==> Next(run[i], moves[i], run[i + 1])
  }

  ghost predicate RowTrue(row: DeviceStatus, enis: Enis) {
    row.state == Ready ==> row.id in enis && IsReady(enis[row.id])
  }

  ghost predicate Sound(w: World) {
    Follows(w.cr.status, w.cr.spec) && forall row <- w.cr.status :: RowTrue(row, w.enis)
  }

  lemma {:induction false} RowsAreTrue(spec: seq<DeviceInfo>, seen: Enis, now: Enis, ok: seq<bool>)
    requires Outcomes(spec, seen, now, ok) && Evolves(seen, now)
    ensures forall row <- Rows(spec, seen, ok) :: RowTrue(row, now)
  {
    if spec != [] {
      var n := |spec| - 1;
      var d := spec[n];
      RowsAreTrue(spec[..n], seen, now, ok[..n]);
      assert Effect(d, seen, now, ok[n]) && EniMoves(seen[d.id], now[d.id]);
      assert forall row <- RowsOf(d, seen[d.id], ok[n]) :: RowTrue(row, now);
    }
  }

  lemma NextKeepsSound(w: World, m: Move, w': World)
    requires Sound(w) && Next(w, m, w')
    ensures Sound(w') && Evolves(w.enis, w'.enis) && w'.cr.spec == w.cr.spec
  {
    if m.Reconciled? {
      EvolvesTransitive(w.enis, m.seen, w'.enis);
      if m.stored {
        RowsFollow(w.cr.spec, m.seen, m.ok);
        RowsAreTrue(w.cr.spec, m.seen, w'.enis, m.ok);
      }
    }
    if w'.cr == w.cr {
      forall row | row in w.cr.status
        ensures RowTrue(row, w'.enis)
      {
        assert RowTrue(row, w.enis);
        assert row.id in w.enis ==> EniMoves(w.enis[row.id], w'.enis[row.id]);
      }
    }
  }

  lemma {:induction false} RunKeepsSound(run: seq<World>, moves: seq<Move>, i: nat)
    requires IsRun(run, moves) && Sound(run[0]) && i < |run|
    ensures Sound(run[i]) && run[i].cr.spec == run[0].cr.spec && Evolves(run[0].enis, run[i].enis)
  {
    if i == 0 {
      assert Evolves(run[0].enis, run[0].enis);
    } else {
      RunKeepsSound(run, moves, i - 1);
      assert Next(run[i - 1], moves[i - 1], run[i - 1 + 1]);
      NextKeepsSound(run[i - 1], moves[i - 1], run[i]);
      EvolvesTransitive(run[0].enis, run[i - 1].enis, run[i].enis);
    }
  }

  /** In every reachable state a Ready row is about an interface that is InUse and RDMA, whatever calls failed and
      whatever status updates were lost. When a reconcile short-circuits, every device of the spec, matched position
      by position, is in that state. */
  lemma ReadySoundness(run: seq<World>, moves: seq<Move>, i: nat)
    requires IsRun(run, moves) && run[0].cr.status == [] && i < |run|
    ensures forall row <- run[i].cr.status :: RowTrue(row, run[i].enis)
    ensures run[i].cr.spec == run[0].cr.spec
    ensures ShortCircuits(run[i].cr) ==> forall k :: 0 <= k < |run[i].cr.spec| ==>
      var d := run[i].cr.spec[k];
      run[i].cr.status[k].id == d.id && d.id in run[i].enis && IsReady(run[i].enis[d.id])
  {
    RunKeepsSound(run, moves, i);
    FollowsShort(run[i].cr.status, run[i].cr.spec);
    if ShortCircuits(run[i].cr) {
      forall k | 0 <= k < |run[i].cr.spec|
        ensures run[i].cr.status[k].id == run[i].cr.spec[k].id
        ensures RowTrue(run[i].cr.status[k], run[i].enis) && run[i].cr.status[k].state == Ready
      {
        assert run[i].cr.status[k] in run[i].cr.status;
      }
    }
  }
}
