/** The history of a stored record, interface by interface, from the completed attempt until everything is ready. */
module RecordHistory {
  import opened Prelude
  import opened EniTypes
  import opened CloudApi
  import opened Cloud
  import opened Planner
  import opened PlanExecution
  import opened SelectEris
  import opened Retry
  import opened SelectedList
  import opened DeviceReconciler
  import opened EndToEnd
  import opened BareView

  // ---------- What a history does to one interface ----------

  /** Every mode change of the interface sets these queue pairs. */
  ghost predicate ModesTo(log: seq<Event>, id: EniId, n: int) {
    forall i :: 0 <= i < |log| && log[i].ModeChanged? && log[i].id == id ==> log[i].queuePairs == n
  }

  lemma {:induction false} ModeHistory(start: Enis, log: seq<Event>, id: EniId, n: int)
    requires Legal(start, log) && id in start && ModesTo(log, id, n)
    ensures id in After(start, log)
    ensures
      var e, f := start[id], After(start, log)[id];
      (f.mode == e.mode && f.queuePairs == e.queuePairs) || (f.mode == HighPerformance && f.queuePairs == Some(n))
  {
    if log != [] {
      var before, last := log[..|log| - 1], log[|log| - 1];
      assert forall i :: 0 <= i < |before| ==> before[i] == log[i];
      ModeHistory(start, before, id, n);
    }
  }

  /** An interface attached to the instance by now was so at the start or was attached to it in the history. */
  lemma {:induction false} AttachedBy(start: Enis, log: seq<Event>, id: EniId, instance: string)
    requires Legal(start, log) && id in AttachedTo(After(start, log), instance)
    requires forall i :: 0 <= i < |log| && log[i].AttachAccepted? && log[i].instance == instance ==> log[i].id != id
    ensures id in AttachedTo(start, instance)
  {
    if log != [] {
      var before, last := log[..|log| - 1], log[|log| - 1];
      assert forall i :: 0 <= i < |before| ==> before[i] == log[i];
      assert last == log[|log| - 1];
      AttachedBy(start, before, id, instance);
    }
  }

  // ---------- The history of a record ----------

  /** The interfaces whose mode only the controller may change: those of the spec, and those attached already. */
  function LeftToUs(start: Enis, spec: seq<DeviceInfo>, instance: string): set<EniId> {
    SpecIds(spec) + AttachedTo(start, instance)
  }

  /** Nobody attaches anything else to the instance from position `from` on. */
  ghost predicate NothingElse(spec: seq<DeviceInfo>, log: seq<Event>, from: nat, instance: string) {
    forall i :: from <= i < |log| && log[i].AttachAccepted? && log[i].instance == instance ==>
      log[i].id in SpecIds(spec)
  }

  /** From the moment the record is stored only the reconciler attaches and converts the instance's interfaces, each
      as its device says. */
  ghost predicate OnlyReconciled(start: Enis, log: seq<Event>, spec: seq<DeviceInfo>, instance: string) {
    && Legal(start, log) && OnlyAsPlanned(spec, LeftToUs(start, spec, instance), log, 0)
    && NothingElse(spec, log, 0, instance)
  }

  lemma {:induction false} LegalSuffix(start: Enis, log: seq<Event>, k: nat)
    requires Legal(start, log) && k <= |log|
    ensures Legal(start, log[..k]) && Legal(After(start, log[..k]), log[k..])
    ensures After(After(start, log[..k]), log[k..]) == After(start, log)
  {
    LegalPrefix(start, log, k);
    if k < |log| {
      var before := log[..|log| - 1];
      LegalSuffix(start, before, k);
      assert before[..k] == log[..k] && log[k..] == before[k..] + [log[|log| - 1]];
      LegalStep(After(start, log[..k]), before[k..], log[|log| - 1]);
    } else {
      assert log[..k] == log && log[k..] == [];
    }
  }

  /** What every reconcile promises of the log, from the position on at which the record was stored, together with
      nobody else attaching to the instance, is such a history. */
  lemma HistoryIsReconciled(cloudStart: Enis, left: set<EniId>, log: seq<Event>, k: nat, spec: seq<DeviceInfo>,
                            instance: string)
    requires Legal(cloudStart, log) && k <= |log| && Legal(cloudStart, log[..k])
    requires OnlyAsPlanned(spec, left, log, k) && NothingElse(spec, log, k, instance)
    requires LeftToUs(After(cloudStart, log[..k]), spec, instance) <= left
    ensures OnlyReconciled(After(cloudStart, log[..k]), log[k..], spec, instance)
    ensures Legal(After(cloudStart, log[..k]), log[k..])
    ensures After(After(cloudStart, log[..k]), log[k..]) == After(cloudStart, log)
  {
    LegalSuffix(cloudStart, log, k);
    assert forall i :: 0 <= i < |log[k..]| ==> log[k..][i] == log[k + i];
  }

  ghost predicate AllAreReady(enis: Enis, eris: seq<Eri>) {
    forall e <- eris :: e.id in enis && IsReady(enis[e.id])
  }

  /** A complete list as it stands when the record is stored: each entry once; first the plan's own, then those made. */
  ghost predicate Stored(now: Enis, start: Enis, instance: string, listing: seq<Eni>, p: Plan, eris: seq<Eri>) {
    && OncePerId(eris) && |eris| == |p.eris| + |p.create| && eris[..|p.eris|] == p.eris
    && (forall id <- now :: id in start && SameButTags(now[id], start[id]))
    && AttachedTo(start, instance) == AttachedTo(now, instance)
    && (forall id <- AttachedTo(start, instance) :: start[id].status != Some(Available))
    && MadeEntries(start, instance, p, eris[|p.eris|..])
    && IsPage(now, listing, AttachedTo(now, instance)) && |AttachedTo(now, instance)| <= PAGE_SIZE
  }

  ghost predicate MadeEntries(start: Enis, instance: string, p: Plan, tail: seq<Eri>) {
    |tail| == |p.create| && forall k | 0 <= k < |tail| :: MadeEntry(start, instance, p, tail[k], k)
  }

  ghost predicate MadeEntry(start: Enis, instance: string, p: Plan, e: Eri, k: nat)
    requires k < |p.create|
  {
    && e.id in start && start[e.id].id == e.id && MadeHere(start[e.id], p.share, instance)
    && e.id !in AttachedTo(start, instance)
    && !e.isPrimary && e.card == p.create[k] && e.instance == instance
  }

  lemma EntryOnce(eris: seq<Eri>, d: DeviceInfo, k: nat)
    requires OncePerId(eris) && k < |eris| && d in SpecOf(eris) && d.id == eris[k].id
    ensures d == DeviceOf(eris[k])
  {
    var j :| 0 <= j < |SpecOf(eris)| && SpecOf(eris)[j] == d;
    assert d == DeviceOf(eris[j]);
    assert j == k;
  }

  lemma PlannedIsPrimary(eris: seq<Eri>, d: DeviceInfo, ev: Event)
    requires d in SpecOf(eris) && PlannedMode(d, ev)
    ensures exists k :: 0 <= k < |eris| && eris[k].id == ev.id && eris[k].isPrimary
  {
    var j :| 0 <= j < |SpecOf(eris)| && SpecOf(eris)[j] == d;
    assert d == DeviceOf(eris[j]);
  }

  /** An interface that no primary entry names keeps its mode and queue pairs. */
  lemma UnconvertedEnds(start: Enis, log: seq<Event>, instance: string, eris: seq<Eri>, id: EniId)
    requires OnlyReconciled(start, log, SpecOf(eris), instance)
    requires id in start && id in LeftToUs(start, SpecOf(eris), instance)
    requires forall k :: 0 <= k < |eris| && eris[k].id == id ==> !eris[k].isPrimary
    ensures id in After(start, log)
    ensures After(start, log)[id].mode == start[id].mode && After(start, log)[id].queuePairs == start[id].queuePairs
  {
    forall i | 0 <= i < |log| && log[i].ModeChanged?
      ensures log[i].id != id
    {
      if d :| d in SpecOf(eris) && PlannedMode(d, log[i]) {
        PlannedIsPrimary(eris, d, log[i]);
      }
    }
    ModeHistory(start, log, id, 0);
    ModeHistory(start, log, id, 1);
  }

  /** An entry that was made: in the end it is ready on its card of the instance, with the planned share. */
  lemma MadeEnds(start: Enis, log: seq<Event>, instance: string, p: Plan, eris: seq<Eri>, j: nat, k: nat)
    requires OncePerId(eris) && j < |eris| && k < |p.create| && MadeEntry(start, instance, p, eris[j], k)
    requires OnlyReconciled(start, log, SpecOf(eris), instance) && AllAreReady(After(start, log), eris)
    ensures
      var id, after := eris[j].id, After(start, log);
      && id in after && after[id].id == id && id in AttachedTo(after, instance) && HasCreatorTag(after[id])
      && IsRdma(after[id]) && after[id].queuePairs == Some(p.share)
      && CardIndex(after[id]) == p.create[k] && !after[id].isPrimary
  {
    var e, after := eris[j], After(start, log);
    assert e in eris && SpecOf(eris)[j] == DeviceOf(e) && SpecOf(eris)[j] in SpecOf(eris);
    UnconvertedEnds(start, log, instance, eris, e.id);
    assert log[..0] == [];
    HistoryEvolves(start, log, 0);
    assert EniMoves(start[e.id], after[e.id]);
    AttachedWherePlanned(start, log, SpecOf(eris), j);
    var i :| 0 <= i < |log| && PlannedAttach(SpecOf(eris)[j], log[i]);
    CardReadsBack(start, log, i, e.card);
  }

  /** An old interface ends as the plan converts it. */
  lemma OldEnds(start: Enis, log: seq<Event>, instance: string, p: Plan, eris: seq<Eri>, x: Eni, y: Eni)
    requires OncePerId(eris) && |eris| >= |p.eris| && eris[..|p.eris|] == p.eris
    requires y.id in start && start[y.id] == y && SameButTags(x, y)
    requires y.id in AttachedTo(start, instance) && y.status != Some(Available)
    requires forall k :: 0 <= k < |p.eris| && p.eris[k].id == x.id ==> p.eris[k] == ToEri(x, p.share)
    requires forall k :: |p.eris| <= k < |eris| ==> eris[k].id != x.id
    requires IsRdma(x) ==> x.queuePairs.Some? && x.queuePairs.value > 0
    requires OnlyReconciled(start, log, SpecOf(eris), instance) && AllAreReady(After(start, log), eris)
    ensures y.id in After(start, log) && Bare(After(start, log)[y.id]) == Bare(ConvertOne(p, x))
    ensures y.id in AttachedTo(After(start, log), instance)
  {
    var id, after := x.id, After(start, log);
    assert log[..0] == [];
    HistoryEvolves(start, log, 0);
    assert EniMoves(y, after[id]);
    if Plans(p, id) {
      var k :| 0 <= k < |p.eris| && p.eris[k].id == id;
      assert eris[..|p.eris|][k] == eris[k] && eris[k] in eris;
      PlannedEnds(start, log, instance, eris, id, k);
    } else {
      NotNamed(p, eris, id);
      UnconvertedEnds(start, log, instance, eris, id);
    }
  }

  lemma NotNamed(p: Plan, eris: seq<Eri>, id: EniId)
    requires |eris| >= |p.eris| && eris[..|p.eris|] == p.eris
    requires !Plans(p, id) && forall k :: |p.eris| <= k < |eris| ==> eris[k].id != id
    ensures forall k :: 0 <= k < |eris| ==> eris[k].id != id
  {
    forall k | 0 <= k < |p.eris|
      ensures eris[k].id != id
    {
      assert eris[..|p.eris|][k] == eris[k];
    }
  }

  lemma PlannedEnds(start: Enis, log: seq<Event>, instance: string, eris: seq<Eri>, id: EniId, k: nat)
    requires OncePerId(eris) && k < |eris| && eris[k].id == id && id in start
    requires OnlyReconciled(start, log, SpecOf(eris), instance)
    ensures id in After(start, log)
    ensures
      var e, f := start[id], After(start, log)[id];
      || (f.mode == e.mode && f.queuePairs == e.queuePairs)
      || (f.mode == HighPerformance && f.queuePairs == Some(eris[k].queuePair))
  {
    assert SpecOf(eris)[k] == DeviceOf(eris[k]) && SpecOf(eris)[k] in SpecOf(eris);
    forall i | 0 <= i < |log| && log[i].ModeChanged? && log[i].id == id
      ensures log[i].queuePairs == eris[k].queuePair
    {
      assert id in SpecIds(SpecOf(eris));
      var d :| d in SpecOf(eris) && PlannedMode(d, log[i]);
      EntryOnce(eris, d, k);
    }
    ModeHistory(start, log, id, eris[k].queuePair);
  }

  // ---------- What is listed in the end ----------

  /** Each wanted interface, as it stands, exactly once. */
  ghost predicate Exactly(enis: Enis, list: seq<Eni>, wanted: set<EniId>) {
    && (forall e <- list :: e.id in wanted && e.id in enis && enis[e.id] == e)
    && DistinctIds(list) && forall id <- wanted :: Lists(list, id)
  }

  function TailIds(p: Plan, eris: seq<Eri>): set<EniId>
    requires |p.eris| <= |eris|
  {
    set e <- eris[|p.eris|..] :: e.id
  }

  /** The interfaces made for the plan, as they stand. */
  function MadeNow(enis: Enis, tail: seq<Eri>): (made: seq<Eni>)
    requires forall e <- tail :: e.id in enis
    ensures |made| == |tail|
  {
    seq(|tail|, k requires 0 <= k < |tail| => enis[tail[k].id])
  }

  /** The old interfaces are listed in their old order. */
  ghost predicate OldOrder(listing: seq<Eni>, final: seq<Eni>, made: set<EniId>) {
    && |Without(final, made)| == |listing|
    && forall k :: 0 <= k < |listing| ==> Without(final, made)[k].id == listing[k].id
  }

  ghost predicate FromListing(listing: seq<Eni>, e: Eri, share: int) {
    exists x :: x in listing && e == ToEri(x, share)
  }

  /** Everything a record went through: how it was stored, what happened since, and that it is all ready. */
  ghost predicate Through(now: Enis, start: Enis, log: seq<Event>, instance: string, listing: seq<Eni>, p: Plan,
                          eris: seq<Eri>) {
    && InstanceListing(listing) && Stored(now, start, instance, listing, p, eris)
    && OnlyReconciled(start, log, SpecOf(eris), instance) && AllAreReady(After(start, log), eris)
    && (forall k :: 0 <= k < |p.eris| ==> FromListing(listing, p.eris[k], p.share))
  }

  lemma NamedBy(p: Plan, eris: seq<Eri>, id: EniId)
    requires |p.eris| <= |eris| && eris[..|p.eris|] == p.eris && id in SpecIds(SpecOf(eris))
    ensures Plans(p, id) || id in TailIds(p, eris)
  {
    var d :| d in SpecOf(eris) && d.id == id;
    var j :| 0 <= j < |SpecOf(eris)| && SpecOf(eris)[j] == d;
    if j < |p.eris| {
      assert p.eris[j] == eris[..|p.eris|][j] == eris[j];
    } else {
      assert eris[|p.eris|..][j - |p.eris|] == eris[j];
    }
  }

  lemma PlansListed(now: Enis, start: Enis, log: seq<Event>, instance: string, listing: seq<Eni>, p: Plan,
                    eris: seq<Eri>, id: EniId)
    requires Through(now, start, log, instance, listing, p, eris) && Plans(p, id)
    ensures id in AttachedTo(now, instance)
  {
    var k :| 0 <= k < |p.eris| && p.eris[k].id == id;
    var x :| x in listing && p.eris[k] == ToEri(x, p.share);
  }

  /** What is attached in the end was attached when the plan was made, or was made for it. */
  lemma AttachedThen(now: Enis, start: Enis, log: seq<Event>, instance: string, listing: seq<Eni>, p: Plan,
                     eris: seq<Eri>, id: EniId)
    requires Through(now, start, log, instance, listing, p, eris)
    requires id in AttachedTo(After(start, log), instance)
    ensures id in AttachedTo(now, instance) || id in TailIds(p, eris)
  {
    if forall i :: 0 <= i < |log| && log[i].AttachAccepted? && log[i].instance == instance ==> log[i].id != id {
      AttachedBy(start, log, id, instance);
    } else {
      NamedBy(p, eris, id);
      if Plans(p, id) {
        PlansListed(now, start, log, instance, listing, p, eris, id);
      }
    }
  }

  lemma TailEnds(now: Enis, start: Enis, log: seq<Event>, instance: string, listing: seq<Eni>, p: Plan, eris: seq<Eri>,
                 k: nat)
    requires Through(now, start, log, instance, listing, p, eris) && k < |p.create|
    ensures
      var id, after := eris[|p.eris|..][k].id, After(start, log);
      && id in after && after[id].id == id && id in AttachedTo(after, instance) && HasCreatorTag(after[id])
      && IsRdma(after[id]) && after[id].queuePairs == Some(p.share)
      && CardIndex(after[id]) == p.create[k] && !after[id].isPrimary
      && id !in AttachedTo(now, instance)
  {
    assert eris[|p.eris| + k] == eris[|p.eris|..][k];
    MadeEnds(start, log, instance, p, eris, |p.eris| + k, k);
  }

  lemma ListingEnds(now: Enis, start: Enis, log: seq<Event>, instance: string, listing: seq<Eni>, p: Plan,
                    eris: seq<Eri>, x: Eni)
    requires Through(now, start, log, instance, listing, p, eris) && x in listing
    ensures x.id in After(start, log) && Bare(After(start, log)[x.id]) == Bare(ConvertOne(p, x))
    ensures x.id in AttachedTo(After(start, log), instance) && x.id !in TailIds(p, eris)
  {
    var y := start[x.id];
    assert SameButTags(now[x.id], y);
    forall k | |p.eris| <= k < |eris|
      ensures eris[k].id != x.id
    {
      assert eris[|p.eris|..][k - |p.eris|] == eris[k];
    }
    forall k | 0 <= k < |p.eris| && p.eris[k].id == x.id
      ensures p.eris[k] == ToEri(x, p.share)
    {
      var z :| z in listing && p.eris[k] == ToEri(z, p.share);
      assert z == x;
    }
    OldEnds(start, log, instance, p, eris, x, y);
  }

  lemma MadeIsListed(now: Enis, start: Enis, log: seq<Event>, instance: string, listing: seq<Eni>, p: Plan,
                     eris: seq<Eri>, final: seq<Eni>, k: nat)
    requires Through(now, start, log, instance, listing, p, eris) && k < |p.create|
    requires Exactly(After(start, log), final, AttachedTo(After(start, log), instance))
    ensures eris[|p.eris|..][k].id in After(start, log)
    ensures After(start, log)[eris[|p.eris|..][k].id] in Only(final, TailIds(p, eris))
  {
    var id := eris[|p.eris|..][k].id;
    TailEnds(now, start, log, instance, listing, p, eris, k);
    FilterParts(final, TailIds(p, eris));
    assert eris[|p.eris|..][k] in eris[|p.eris|..] && Lists(final, id);
    var j :| 0 <= j < |final| && final[j].id == id;
    assert final[j] in final;
  }

  lemma TailStands(now: Enis, start: Enis, log: seq<Event>, instance: string, listing: seq<Eni>, p: Plan,
                   eris: seq<Eri>)
    requires Through(now, start, log, instance, listing, p, eris)
    ensures forall e <- eris[|p.eris|..] :: e.id in After(start, log)
    ensures DistinctIds(MadeNow(After(start, log), eris[|p.eris|..]))
  {
    var after, tail := After(start, log), eris[|p.eris|..];
    forall k | 0 <= k < |tail|
      ensures tail[k].id in after && after[tail[k].id].id == tail[k].id
    {
      TailEnds(now, start, log, instance, listing, p, eris, k);
    }
    assert forall i, j :: 0 <= i < j < |tail| ==> tail[i] == eris[|p.eris| + i] && tail[j] == eris[|p.eris| + j];
  }

  lemma MadeIds(enis: Enis, tail: seq<Eri>)
    requires forall e <- tail :: e.id in enis && enis[e.id].id == e.id
    ensures Ids(MadeNow(enis, tail)) == set e <- tail :: e.id
  {
    var made := MadeNow(enis, tail);
    forall id
      ensures id in Ids(made) <==> id in (set e <- tail :: e.id)
    {
      if id in Ids(made) {
        var e :| e in made && e.id == id;
        var k :| 0 <= k < |made| && made[k] == e;
        assert tail[k] in tail;
      }
      if t :| t in tail && t.id == id {
        var k :| 0 <= k < |tail| && tail[k] == t;
        assert made[k] in made;
      }
    }
  }
}
