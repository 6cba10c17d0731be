/** From plan to ready: a completed plan is a spec the reconciler finishes, on the cards that were planned. */
module EndToEnd {
  import opened Prelude
  import opened EniTypes
  import opened CloudApi
  import opened Cloud
  import opened Planner
  import opened PlannerProperties
  import opened Creation
  import opened SelectEris
  import opened Retry
  import opened SelectedList
  import opened DeviceReconciler
  import opened DeviceRuns
  import opened Progress

  function DeviceOf(e: Eri): DeviceInfo {
    DeviceInfo(e.instance, e.mac, e.isPrimary, e.id, e.card, e.queuePair)
  }

  /** The spec NodeReconciler stores for a list of planned interfaces. */
  function SpecOf(eris: seq<Eri>): seq<DeviceInfo> {
    seq(|eris|, k requires 0 <= k < |eris| => DeviceOf(eris[k]))
  }

  // ---------- A completed plan is reconcilable ----------

  /** What is attached to an instance is in use or about to be; the primary is always in use. */
  ghost predicate AttachedInUse(enis: Enis, instance: string) {
    forall id <- AttachedTo(enis, instance) ::
      enis[id].status == Some(InUse) || (enis[id].status == Some(Attaching) && !enis[id].isPrimary)
  }

  /** Every planned interface is either the primary or an owned RDMA interface of the listing. */
  lemma PlannedAreOwned(managed: bool, listing: seq<Eni>, limit: int, cardCount: int, k: nat)
    requires PlanFor(managed, listing, limit, cardCount).Ok?
    requires k < |PlanFor(managed, listing, limit, cardCount).value.eris|
    ensures
      var p := PlanFor(managed, listing, limit, cardCount).value;
      exists x :: x in listing && p.eris[k] == ToEri(x, p.share) && (x.isPrimary || Eligible(managed, x))
  {
    var p := PlanFor(managed, listing, limit, cardCount).value;
    var used := Used(managed, listing, limit, cardCount);
    FirstPerCardPicks(managed, listing, {});
    PrimariesAre(listing);
    assert used[k] in used && p.eris[k] == ToEri(used[k], p.share);
  }

  lemma KeptIsReconcilable(now: Enis, next: Enis, managed: bool, instance: string, listing: seq<Eni>, limit: int,
                           cardCount: int, k: nat)
    requires IsPage(now, listing, AttachedTo(now, instance)) && AttachedInUse(now, instance)
    requires PlanFor(managed, listing, limit, cardCount).Ok?
    requires k < |PlanFor(managed, listing, limit, cardCount).value.eris|
    requires forall id <- now :: id in next && SameButTags(now[id], next[id])
    ensures
      var e := PlanFor(managed, listing, limit, cardCount).value.eris[k];
      e.id in next && Reconcilable(DeviceOf(e), next[e.id])
  {
    PlannedAreOwned(managed, listing, limit, cardCount, k);
  }

  lemma MadeIsReconcilable(start: Enis, next: Enis, instance: string, p: Plan, e: Eri)
    requires Kept(start, next, instance, p)
    requires e.id in Tagged(next, instance) && Describes(e, next, instance)
    ensures Reconcilable(DeviceOf(e), next[e.id])
  {}

  /** Whatever attempts came before, the list a complete attempt returns is a spec on which the reconciler makes
      progress: every device is the primary in use or an RDMA interface that is available or attached. */
  lemma CompletedPlanIsReconcilable(run: Run, managed: bool, instance: string, limit: int, cardCount: int,
                                    listing: seq<Eni>, i: nat)
    requires IsAttemptRun(run, managed, instance, limit, cardCount) && i < |run.results| && run.results[i].Ok?
    requires Begins(run.states[0], managed, instance, limit, cardCount, listing)
    requires AttachedInUse(run.states[0], instance)
    ensures AllReconcilable(SpecOf(run.results[i].value), run.states[i + 1])
  {
    BegunKeeps(run, managed, instance, limit, cardCount, listing, i);
    assert IsAttempt(run, managed, instance, limit, cardCount, i);
    StepIsReconcilable(run.states[0], run.begun[i], run.states[i + 1], managed, instance, limit, cardCount,
                       listing, run.listings[i], run.results[i]);
  }

  lemma StepIsReconcilable(start: Enis, now: Enis, next: Enis, managed: bool, instance: string, limit: int,
                           cardCount: int, first: seq<Eni>, listing: seq<Eni>, r: Result<seq<Eri>, SelectError>)
    requires Begins(start, managed, instance, limit, cardCount, first) && AttachedInUse(start, instance)
    requires Kept(start, now, instance, PlanFor(managed, first, limit, cardCount).value)
    requires SelectEffect(now, next, managed, instance, limit, cardCount, listing, r) && r.Ok?
    ensures AllReconcilable(SpecOf(r.value), next)
  {
    var p, q := PlanFor(managed, first, limit, cardCount).value, PlanFor(managed, listing, limit, cardCount).value;
    SamePlan(start, now, managed, instance, limit, cardCount, first, listing);
    AttemptKeeps(start, now, next, instance, p, q, r);
    StillInUse(start, now, instance, p);
    forall k | 0 <= k < |r.value|
      ensures r.value[k].id in next && Reconcilable(DeviceOf(r.value[k]), next[r.value[k].id])
    {
      EntryIsReconcilable(start, now, next, managed, instance, limit, cardCount, p, listing, r, k);
    }
  }

  lemma StillInUse(start: Enis, now: Enis, instance: string, p: Plan)
    requires AttachedInUse(start, instance) && Kept(start, now, instance, p)
    ensures AttachedInUse(now, instance)
  {
    forall id | id in AttachedTo(now, instance)
      ensures now[id].status == Some(InUse) || (now[id].status == Some(Attaching) && !now[id].isPrimary)
    {
      assert id in AttachedTo(start, instance) && Alike(start[id], now[id]) &&
        StatusMoves(start[id].status, now[id].status);
    }
  }

  lemma EntryIsReconcilable(start: Enis, now: Enis, next: Enis, managed: bool, instance: string, limit: int,
                            cardCount: int, p: Plan, listing: seq<Eni>, r: Result<seq<Eri>, SelectError>, k: nat)
    requires AttachedInUse(now, instance) && Kept(start, next, instance, p)
    requires SelectEffect(now, next, managed, instance, limit, cardCount, listing, r) && r.Ok? && k < |r.value|
    ensures r.value[k].id in next && Reconcilable(DeviceOf(r.value[k]), next[r.value[k].id])
  {
    var q := PlanFor(managed, listing, limit, cardCount).value;
    if k < |q.eris| {
      assert r.value[..|q.eris|][k] == r.value[k];
      KeptIsReconcilable(now, next, managed, instance, listing, limit, cardCount, k);
    } else {
      assert r.value[|q.eris|..][k - |q.eris|] == r.value[k];
      MadeIsReconcilable(start, next, instance, p, r.value[k]);
    }
  }

  // ---------- The planned card ----------

  /** An interface that left Available did so through an accepted attach. */
  lemma {:induction false} LeftAvailableByAttach(start: Enis, log: seq<Event>, id: EniId)
    requires Legal(start, log) && id in After(start, log) && After(start, log)[id].status != Some(Available)
    requires id in start ==> start[id].status == Some(Available)
    ensures exists i :: 0 <= i < |log| && log[i].AttachAccepted? && log[i].id == id
  {
    if log != [] {
      var before := log[..|log| - 1];
      if id in After(start, before) && After(start, before)[id].status != Some(Available) {
        LeftAvailableByAttach(start, before, id);
        var i :| 0 <= i < |before| && before[i].AttachAccepted? && before[i].id == id;
        assert log[i] == before[i];
      } else {
        assert log[|log| - 1].AttachAccepted? && log[|log| - 1].id == id;
      }
    }
  }

  /** Over every history in which only the reconciler attaches planned interfaces: once a planned interface that was
      available has been attached, it sits on its planned card of its planned instance, and was attached just once. */
  lemma AttachedWherePlanned(start: Enis, log: seq<Event>, spec: seq<DeviceInfo>, k: nat)
    requires Legal(start, log) && AsPlanned(spec, log, 0) && k < |spec|
    requires forall i, j :: 0 <= i < j < |spec| ==> spec[i].id != spec[j].id
    requires spec[k].id in start ==> start[spec[k].id].status == Some(Available)
    requires spec[k].id in After(start, log) && After(start, log)[spec[k].id].status != Some(Available)
    ensures CardIndex(After(start, log)[spec[k].id]) == spec[k].card
    ensures exists i :: 0 <= i < |log| && PlannedAttach(spec[k], log[i])
    ensures forall i, j | 0 <= i < j < |log| && log[i].AttachAccepted? && log[j].AttachAccepted? ::
      !(log[i].id == spec[k].id && log[j].id == spec[k].id)
  {
    var d := spec[k];
    LeftAvailableByAttach(start, log, d.id);
    var i :| 0 <= i < |log| && log[i].AttachAccepted? && log[i].id == d.id;
    assert d in spec && d.id in SpecIds(spec);
    var d' :| d' in spec && PlannedAttach(d', log[i]);
    var j :| 0 <= j < |spec| && spec[j] == d';
    assert spec[j].id == spec[k].id && j == k;
    CardReadsBack(start, log, i, d.card);
    forall i, j | 0 <= i < j < |log| && log[i].AttachAccepted? && log[j].AttachAccepted?
      ensures log[i].id != log[j].id
    {
      AttachedAtMostOnce(start, log, i, j);
    }
  }

  /** Attached at all, the interface sits on the card the entry names. */
  ghost predicate OnItsCard(enis: Enis, e: Eri) {
    e.id in enis && (enis[e.id].status != Some(Available) ==> CardIndex(enis[e.id]) == e.card)
  }

  lemma CompletedPlanIsPlaced(run: Run, managed: bool, instance: string, limit: int, cardCount: int, listing: seq<Eni>,
                              i: nat)
    requires IsAttemptRun(run, managed, instance, limit, cardCount) && i < |run.results| && run.results[i].Ok?
    requires Begins(run.states[0], managed, instance, limit, cardCount, listing)
    ensures forall e <- run.results[i].value :: OnItsCard(run.states[i + 1], e)
  {
    BegunKeeps(run, managed, instance, limit, cardCount, listing, i);
    assert IsAttempt(run, managed, instance, limit, cardCount, i);
    StepIsPlaced(run.states[0], run.begun[i], run.states[i + 1], managed, instance, limit, cardCount, listing,
                 run.listings[i], run.results[i].value);
  }

  lemma StepIsPlaced(start: Enis, now: Enis, next: Enis, managed: bool, instance: string, limit: int, cardCount: int,
                     first: seq<Eni>, listing: seq<Eni>, eris: seq<Eri>)
    requires Begins(start, managed, instance, limit, cardCount, first)
    requires Kept(start, now, instance, PlanFor(managed, first, limit, cardCount).value)
    requires SelectEffect(now, next, managed, instance, limit, cardCount, listing, Ok(eris))
    ensures forall e <- eris :: OnItsCard(next, e)
  {
    var p, q := PlanFor(managed, first, limit, cardCount).value, PlanFor(managed, listing, limit, cardCount).value;
    SamePlan(start, now, managed, instance, limit, cardCount, first, listing);
    AttemptKeeps(start, now, next, instance, p, q, Ok(eris));
    forall k | 0 <= k < |eris|
      ensures OnItsCard(next, eris[k])
    {
      if k < |q.eris| {
        assert eris[..|q.eris|][k] == eris[k];
        PlannedAreOwned(managed, listing, limit, cardCount, k);
        var x :| x in listing && q.eris[k] == ToEri(x, q.share);
        assert SameButTags(now[x.id], next[x.id]);
      } else {
        assert eris[|q.eris|..][k - |q.eris|] == eris[k];
        assert eris[k].id in Tagged(next, instance);
      }
    }
  }

  ghost predicate AttachedOnce(log: seq<Event>, id: EniId) {
    forall a, b | 0 <= a < b < |log| && log[a].AttachAccepted? && log[b].AttachAccepted? ::
      log[a].id != id || log[b].id != id
  }

  /** From a completed plan on, over every history in which only the reconciler attaches planned interfaces: a planned
      interface that is attached at all sits on its planned card, and it is attached at most once. */
  lemma CompletedPlanSitsAsPlanned(run: Run, managed: bool, instance: string, limit: int, cardCount: int,
                                   listing: seq<Eni>, i: nat, log: seq<Event>, k: nat)
    requires IsAttemptRun(run, managed, instance, limit, cardCount) && i < |run.results| && run.results[i].Ok?
    requires Begins(run.states[0], managed, instance, limit, cardCount, listing) && InstanceListing(listing)
    requires Legal(run.states[i + 1], log) && AsPlanned(SpecOf(run.results[i].value), log, 0)
    requires k < |run.results[i].value|
    ensures OnItsCard(After(run.states[i + 1], log), run.results[i].value[k])
    ensures AttachedOnce(log, run.results[i].value[k].id)
  {
    var eris, start := run.results[i].value, run.states[i + 1];
    PlacedOnce(run, managed, instance, limit, cardCount, listing, i);
    assert eris[k] in eris;
    SitsAsPlanned(start, log, eris, k);
  }

  lemma PlacedOnce(run: Run, managed: bool, instance: string, limit: int, cardCount: int, listing: seq<Eni>, i: nat)
    requires IsAttemptRun(run, managed, instance, limit, cardCount) && i < |run.results| && run.results[i].Ok?
    requires Begins(run.states[0], managed, instance, limit, cardCount, listing) && InstanceListing(listing)
    ensures OncePerId(run.results[i].value) && forall e <- run.results[i].value :: OnItsCard(run.states[i + 1], e)
  {
    CompleteListIsWellChosen(run, managed, instance, limit, cardCount, listing, i);
    CompletedPlanIsPlaced(run, managed, instance, limit, cardCount, listing, i);
  }

  lemma SitsAsPlanned(start: Enis, log: seq<Event>, eris: seq<Eri>, k: nat)
    requires Legal(start, log) && AsPlanned(SpecOf(eris), log, 0) && OncePerId(eris)
    requires k < |eris| && OnItsCard(start, eris[k])
    ensures OnItsCard(After(start, log), eris[k]) && AttachedOnce(log, eris[k].id)
  {
    var e, after := eris[k], After(start, log);
    forall a, b | 0 <= a < b < |log| && log[a].AttachAccepted? && log[b].AttachAccepted?
      ensures log[a].id != log[b].id
    {
      AttachedAtMostOnce(start, log, a, b);
    }
    assert log[..0] == [];
    HistoryEvolves(start, log, 0);
    assert EniMoves(start[e.id], after[e.id]);
    if start[e.id].status == Some(Available) && after[e.id].status != Some(Available) {
      AttachedWherePlanned(start, log, SpecOf(eris), k);
    }
  }

  // ---------- Plan to ready ----------

  /** A completed plan, stored as a fresh record: in every run of reconciles and cloud moves, with any failures, there
      are at most two productive moves per device; where no device is left to act on or still attaching, every device
      is ready; and then the next reconcile that stores its status closes the record for good. */
  lemma PlanBecomesReady(attempts: Run, managed: bool, instance: string, limit: int, cardCount: int, listing: seq<Eni>,
                         i: nat, run: seq<World>, moves: seq<Move>, productive: seq<bool>)
    requires IsAttemptRun(attempts, managed, instance, limit, cardCount) && i < |attempts.results|
    requires attempts.results[i].Ok?
    requires Begins(attempts.states[0], managed, instance, limit, cardCount, listing)
    requires AttachedInUse(attempts.states[0], instance)
    requires IsRun(run, moves) && |productive| == |moves|
    requires run[0] == World(attempts.states[i + 1], Record(SpecOf(attempts.results[i].value), []))
    requires forall k :: 0 <= k < |moves| && productive[k] ==> Productive(run[k], moves[k], run[k + 1])
    ensures ProductiveMoves(productive) <= 2 * |attempts.results[i].value|
    ensures
      var now, spec := run[|moves|], run[0].cr.spec;
      && now.cr.spec == spec && (forall d <- spec :: d.id in now.enis)
      && ((exists d :: d in spec && (Actionable(d, now.enis[d.id]) || now.enis[d.id].status == Some(Attaching)))
          || forall d <- spec :: IsReady(now.enis[d.id]))
      && ((forall d <- spec :: IsReady(now.enis[d.id])) ==> forall m, w :: StoredAt(now, m, w) ==> Closed(w))
  {
    CompletedPlanIsReconcilable(attempts, managed, instance, limit, cardCount, listing, i);
    RunsConverge(run, moves, productive);
    var now := run[|moves|];
    ZeroIffReady(run[0].cr.spec, now.enis);
    if forall d <- now.cr.spec :: IsReady(now.enis[d.id]) {
      forall m, w | StoredAt(now, m, w)
        ensures Closed(w)
      {
        FinalReconcile(now, m, w);
      }
    }
  }

  /** A reconcile from `now` that stores its status. */
  ghost predicate StoredAt(now: World, m: Move, w: World) {
    m.Reconciled? && m.stored && Next(now, m, w)
  }

  /** The record says that everything is done, and no reconcile changes it any more. */
  ghost predicate Closed(w: World) {
    ShortCircuits(w.cr) && forall m, w' :: Next(w, m, w') ==> m.CloudMoves? && w'.cr == w.cr
  }
}
