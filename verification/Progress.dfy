/** Progress of the device reconciler on a planned spec: a measure that only falls, what makes it fall, and what
    happens at zero. */
module Progress {
  import opened Prelude
  import opened EniTypes
  import opened CloudApi
  import opened DeviceReconciler
  import opened DeviceRuns

  /** What planning guarantees of a device: a primary in use, or an RDMA interface on its way to being in use. */
  predicate Reconcilable(d: DeviceInfo, e: Eni) {
    if d.isPrimary then e.status == Some(InUse)
    else IsRdma(e) && (e.status == Some(Available) || e.status == Some(Attaching) || e.status == Some(InUse))
  }

  predicate AllReconcilable(spec: seq<DeviceInfo>, enis: Enis) {
    forall d <- spec :: d.id in enis && Reconcilable(d, enis[d.id])
  }

  function Rank(e: Eni): nat {
    match e.status
    case Some(Available) => 2
    case Some(Attaching) => 1
    case Some(InUse) => if IsRdma(e) then 0 else 1
    case _ => 0
  }

  function Measure(spec: seq<DeviceInfo>, enis: Enis): nat
    requires forall d <- spec :: d.id in enis
  {
    if spec == [] then 0 else Rank(enis[spec[0].id]) + Measure(spec[1..], enis)
  }

  /** The devices a reconcile acted on with success. */
  function Succeeded(spec: seq<DeviceInfo>, seen: Enis, ok: seq<bool>): nat
    requires (forall d <- spec :: d.id in seen) && |ok| == |spec|
  {
    if spec == [] then 0
    else (if Actionable(spec[0], seen[spec[0].id]) && ok[0] then 1 else 0) + Succeeded(spec[1..], seen, ok[1..])
  }

  // ---------- What makes the measure fall ----------

  /** Whatever happens in the cloud, planned devices stay reconcilable and the measure never rises. */
  lemma {:induction false} MeasureNeverRises(spec: seq<DeviceInfo>, a: Enis, b: Enis)
    requires AllReconcilable(spec, a) && Evolves(a, b)
    ensures AllReconcilable(spec, b) && Measure(spec, b) <= Measure(spec, a)
  {
    if spec != [] {
      var d := spec[0];
      assert EniMoves(a[d.id], b[d.id]);
      MeasureNeverRises(spec[1..], a, b);
    }
  }

  lemma {:induction false} CallsLowerRanks(spec: seq<DeviceInfo>, seen: Enis, after: Enis, ok: seq<bool>)
    requires AllReconcilable(spec, seen) && Evolves(seen, after) && Outcomes(spec, seen, after, ok)
    ensures AllReconcilable(spec, after)
    ensures Measure(spec, after) + Succeeded(spec, seen, ok) <= Measure(spec, seen)
  {
    if spec != [] {
      var d := spec[0];
      assert EniMoves(seen[d.id], after[d.id]) && Effect(d, seen, after, ok[0]);
      forall k | 0 <= k < |spec[1..]|
        ensures Effect(spec[1..][k], seen, after, ok[1..][k])
      {
        assert Effect(spec[k + 1], seen, after, ok[k + 1]);
      }
      CallsLowerRanks(spec[1..], seen, after, ok[1..]);
    }
  }

  /** A reconcile lowers the measure by at least the number of its calls that succeed, whatever the others do. */
  lemma ReconcileFalls(w: World, m: Move, w': World)
    requires AllReconcilable(w.cr.spec, w.enis) && m.Reconciled? && Next(w, m, w')
    ensures AllReconcilable(w.cr.spec, w'.enis)
    ensures (forall d <- w.cr.spec :: d.id in m.seen) && |m.ok| == |w.cr.spec|
    ensures Measure(w.cr.spec, w'.enis) + Succeeded(w.cr.spec, m.seen, m.ok) <= Measure(w.cr.spec, w.enis)
  {
    MeasureNeverRises(w.cr.spec, w.enis, m.seen);
    CallsLowerRanks(w.cr.spec, m.seen, w'.enis, m.ok);
  }

  ghost predicate FinishesOne(spec: seq<DeviceInfo>, a: Enis, b: Enis) {
    exists d ::
      d in spec && d.id in a && d.id in b && a[d.id].status == Some(Attaching) && b[d.id].status == Some(InUse)
  }

  /** A cloud move that finishes the attach of a planned device lowers the measure. */
  lemma {:induction false} FinishFalls(spec: seq<DeviceInfo>, a: Enis, b: Enis)
    requires AllReconcilable(spec, a) && Evolves(a, b) && FinishesOne(spec, a, b)
    ensures AllReconcilable(spec, b) && Measure(spec, b) < Measure(spec, a)
  {
    var d := spec[0];
    assert EniMoves(a[d.id], b[d.id]);
    MeasureNeverRises(spec[1..], a, b);
    MeasureNeverRises(spec, a, b);
    if !(a[d.id].status == Some(Attaching) && b[d.id].status == Some(InUse)) {
      FinishFalls(spec[1..], a, b);
    }
  }

  // ---------- At zero ----------

  /** At zero every device is ready; above zero there is always something for the reconciler or the cloud to do. */
  lemma {:induction false} ZeroIffReady(spec: seq<DeviceInfo>, enis: Enis)
    requires AllReconcilable(spec, enis)
    ensures Measure(spec, enis) == 0 <==> forall d <- spec :: IsReady(enis[d.id])
    ensures Measure(spec, enis) > 0 ==>
      exists d :: d in spec && (Actionable(d, enis[d.id]) || enis[d.id].status == Some(Attaching))
  {
    if spec != [] {
      ZeroIffReady(spec[1..], enis);
      assert spec[0] in spec && Reconcilable(spec[0], enis[spec[0].id]);
      assert forall d :: d in spec[1..] ==> d in spec;
      assert Rank(enis[spec[0].id]) > 0 ==>
        Actionable(spec[0], enis[spec[0].id]) || enis[spec[0].id].status == Some(Attaching);
    }
  }

  lemma {:induction false} ReadyRows(spec: seq<DeviceInfo>, seen: Enis, ok: seq<bool>)
    requires Known(spec, seen) && |ok| == |spec| && forall d <- spec :: IsReady(seen[d.id])
    ensures |Rows(spec, seen, ok)| == |spec| && AllReady(Rows(spec, seen, ok))
  {
    if spec != [] {
      ReadyRows(spec[..|spec| - 1], seen, ok[..|spec| - 1]);
    }
  }

  /** At zero, one more reconcile whose status update is stored writes a full all-Ready status, and from then on
      nothing but cloud moves happens to this record. */
  lemma FinalReconcile(w: World, m: Move, w': World)
    requires AllReconcilable(w.cr.spec, w.enis) && Measure(w.cr.spec, w.enis) == 0
    requires m.Reconciled? && m.stored && Next(w, m, w')
    ensures ShortCircuits(w'.cr)
    ensures forall m', w'' :: Next(w', m', w'') ==> m'.CloudMoves? && w''.cr == w'.cr
  {
    MeasureNeverRises(w.cr.spec, w.enis, m.seen);
    ZeroIffReady(w.cr.spec, m.seen);
    ReadyRows(w.cr.spec, m.seen, m.ok);
  }

  /** An interface that is being attached leaves no row: the reconcile stores an empty status and does not ask to come
      back, although a step is left and the record does not short-circuit. */
  lemma AttachingIsSilent(d: DeviceInfo, e: Eni, ok: bool)
    requires !d.isPrimary && e.id == d.id && e.status == Some(Attaching) && IsRdma(e)
    ensures
      var spec, seen := [d], map[d.id := e];
      && AllReconcilable(spec, seen) && Known(spec, seen)
      && Rows(spec, seen, [ok]) == [] && AllReady(Rows(spec, seen, [ok]))
      && !ShortCircuits(Record(spec, Rows(spec, seen, [ok]))) && Measure(spec, seen) == 1
  {
    assert Measure([d][1..], map[d.id := e]) == 0;
    assert Rows([d][..0], map[d.id := e], [ok][..0]) == [];
  }

  // ---------- Convergence ----------

  /** A reconcile one of whose calls succeeds, or a cloud move that finishes an attach. */
  ghost predicate Productive(w: World, m: Move, w': World) {
    match m
    case CloudMoves => FinishesOne(w.cr.spec, w.enis, w'.enis)
    case Reconciled(seen, ok, _) => SomeSuccess(w.cr.spec, seen, ok)
  }

  ghost predicate SomeSuccess(spec: seq<DeviceInfo>, seen: Enis, ok: seq<bool>) {
    exists k :: 0 <= k < |spec| && k < |ok| && spec[k].id in seen && Actionable(spec[k], seen[spec[k].id]) && ok[k]
  }

  function ProductiveMoves(productive: seq<bool>): nat {
    if productive == [] then 0
    else ProductiveMoves(productive[..|productive| - 1]) + if productive[|productive| - 1] then 1 else 0
  }

  lemma {:induction false} CountPositive(spec: seq<DeviceInfo>, seen: Enis, ok: seq<bool>)
    requires (forall d <- spec :: d.id in seen) && |ok| == |spec|
    ensures Succeeded(spec, seen, ok) > 0 <==> SomeSuccess(spec, seen, ok)
  {
    if spec != [] {
      CountPositive(spec[1..], seen, ok[1..]);
      forall k | 0 <= k < |spec| - 1
        ensures spec[1..][k] == spec[k + 1] && ok[1..][k] == ok[k + 1]
      {}
      if SomeSuccess(spec[1..], seen, ok[1..]) {
        var k :| 0 <= k < |spec| - 1 && Actionable(spec[1..][k], seen[spec[1..][k].id]) && ok[1..][k];
        assert Actionable(spec[k + 1], seen[spec[k + 1].id]) && ok[k + 1];
      }
      if SomeSuccess(spec, seen, ok) && !(Actionable(spec[0], seen[spec[0].id]) && ok[0]) {
        var k :| 0 <= k < |spec| && Actionable(spec[k], seen[spec[k].id]) && ok[k];
        assert Actionable(spec[1..][k - 1], seen[spec[1..][k - 1].id]) && ok[1..][k - 1];
      }
    }
  }

  lemma ProductiveFalls(w: World, m: Move, w': World)
    requires AllReconcilable(w.cr.spec, w.enis) && Next(w, m, w')
    ensures AllReconcilable(w.cr.spec, w'.enis) && Measure(w.cr.spec, w'.enis) <= Measure(w.cr.spec, w.enis)
    ensures Productive(w, m, w') ==> Measure(w.cr.spec, w'.enis) < Measure(w.cr.spec, w.enis)
  {
    match m
    case CloudMoves =>
      MeasureNeverRises(w.cr.spec, w.enis, w'.enis);
      if Productive(w, m, w') {
        FinishFalls(w.cr.spec, w.enis, w'.enis);
      }
    case Reconciled(seen, ok, _) =>
      MeasureNeverRises(w.cr.spec, w.enis, seen);
      MeasureNeverRises(w.cr.spec, seen, w'.enis);
      if Productive(w, m, w') {
        ReconcileFalls(w, m, w');
        CountPositive(w.cr.spec, seen, ok);
      }
  }

  /** In any run, with any failures and any interleaving, the productive moves so far plus the remaining measure
      never exceed the initial measure, which is at most two per device. */
  lemma {:induction false} RunsConverge(run: seq<World>, moves: seq<Move>, productive: seq<bool>)
    requires IsRun(run, moves) && |productive| == |moves|
    requires forall i :: 0 <= i < |moves| && productive[i] ==> Productive(run[i], moves[i], run[i + 1])
    requires AllReconcilable(run[0].cr.spec, run[0].enis)
    ensures AllReconcilable(run[0].cr.spec, run[|moves|].enis) && run[|moves|].cr.spec == run[0].cr.spec
    ensures
      ProductiveMoves(productive) + Measure(run[0].cr.spec, run[|moves|].enis) <=
      Measure(run[0].cr.spec, run[0].enis) <= 2 * |run[0].cr.spec|
  {
    var n := |moves|;
    if n > 0 {
      RunsConverge(run[..n], moves[..n - 1], productive[..n - 1]);
      assert Next(run[n - 1], moves[n - 1], run[n - 1 + 1]);
      assert productive[n - 1] ==> Productive(run[n - 1], moves[n - 1], run[n - 1 + 1]);
      ProductiveFalls(run[n - 1], moves[n - 1], run[n]);
    } else {
      MeasureBounded(run[0].cr.spec, run[0].enis);
    }
  }

  lemma {:induction false} MeasureBounded(spec: seq<DeviceInfo>, enis: Enis)
    requires forall d <- spec :: d.id in enis
    ensures Measure(spec, enis) <= 2 * |spec|
  {
    if spec != [] {
      MeasureBounded(spec[1..], enis);
    }
  }
}
