/** The list a complete attempt returns: when it names an interface twice, and why it does not after nothing but
    failed attempts. */
module SelectedList {
  import opened Prelude
  import opened EniTypes
  import opened CloudApi
  import opened Cloud
  import opened Planner
  import opened PlannerProperties
  import opened PlanExecution
  import opened Creation
  import opened SelectEris
  import opened Retry

  // ---------- Naming twice ----------

  /** Some interface is named twice. */
  predicate Doubled(eris: seq<Eri>) {
    exists i, j | 0 <= i < j < |eris| :: eris[i].id == eris[j].id
  }

  predicate OncePerId(eris: seq<Eri>) {
    forall i, j | 0 <= i < j < |eris| :: eris[i].id != eris[j].id
  }

  predicate Meet(a: seq<Eri>, b: seq<Eri>) {
    exists i, k | 0 <= i < |a| && 0 <= k < |b| :: a[i].id == b[k].id
  }

  lemma DoubledAcross(a: seq<Eri>, b: seq<Eri>)
    requires OncePerId(a) && OncePerId(b)
    ensures Doubled(a + b) <==> Meet(a, b)
  {
    var all := a + b;
    if Doubled(all) {
      var i, j :| 0 <= i < j < |all| && all[i].id == all[j].id;
      assert i < |a| <= j;
      assert a[i].id == b[j - |a|].id;
    }
    if Meet(a, b) {
      var i, k :| 0 <= i < |a| && 0 <= k < |b| && a[i].id == b[k].id;
      assert all[i].id == all[|a| + k].id;
    }
  }

  /** What a listing says of an interface the planner keeps or converts: it is the first eligible one on its card, or
      the primary while there are queue pairs to hand out and card 0 has nothing eligible. */
  ghost predicate PutToUse(managed: bool, listing: seq<Eni>, limit: int, cardCount: int, id: EniId) {
    exists k | 0 <= k < |listing| && listing[k].id == id ::
      || FirstOnItsCard(managed, listing, k)
      || (listing[k].isPrimary && Share(managed, listing, limit, cardCount) > 0 && !CardOwned(managed, listing, 0))
  }

  lemma PlansIff(managed: bool, listing: seq<Eni>, limit: int, cardCount: int, id: EniId)
    requires PlanFor(managed, listing, limit, cardCount).Ok?
    ensures Plans(PlanFor(managed, listing, limit, cardCount).value, id) <==>
      PutToUse(managed, listing, limit, cardCount, id)
  {
    var p, used := PlanFor(managed, listing, limit, cardCount).value, Used(managed, listing, limit, cardCount);
    assert p.eris == ToEris(used, p.share);
    if Plans(p, id) {
      var k :| 0 <= k < |p.eris| && p.eris[k].id == id;
      assert used[k] in used && used[k].id == id;
      UsedIsPutToUse(managed, listing, limit, cardCount, used[k]);
    }
    if PutToUse(managed, listing, limit, cardCount, id) {
      PutToUseIsUsed(managed, listing, limit, cardCount, id);
      var e :| e in used && e.id == id;
      var k :| 0 <= k < |used| && used[k] == e;
      assert p.eris[k].id == id;
    }
  }

  lemma UsedIsPutToUse(managed: bool, listing: seq<Eni>, limit: int, cardCount: int, e: Eni)
    requires e in Used(managed, listing, limit, cardCount)
    ensures PutToUse(managed, listing, limit, cardCount, e.id)
  {
    if e in FirstPerCard(managed, listing, {}) {
      KeptAreFirst(managed, listing, {});
    } else {
      PrimariesAre(listing);
      OwnedCards(managed, listing);
      var k :| 0 <= k < |listing| && listing[k] == e;
      assert listing[k].isPrimary;
    }
  }

  lemma PutToUseIsUsed(managed: bool, listing: seq<Eni>, limit: int, cardCount: int, id: EniId)
    requires PutToUse(managed, listing, limit, cardCount, id)
    ensures exists e :: e in Used(managed, listing, limit, cardCount) && e.id == id
  {
    var k :| 0 <= k < |listing| && listing[k].id == id
      && (FirstOnItsCard(managed, listing, k)
          || (listing[k].isPrimary && Share(managed, listing, limit, cardCount) > 0 &&
              !CardOwned(managed, listing, 0)));
    if FirstOnItsCard(managed, listing, k) {
      KeptAreFirst(managed, listing, {});
    } else {
      PrimariesAre(listing);
      OwnedCards(managed, listing);
      assert listing[k] in Conversion(managed, listing, limit, cardCount);
    }
    assert listing[k] in Used(managed, listing, limit, cardCount);
  }

  /** Among the interfaces taken from the reuse query's page, one for each missing card, one is put to use already. */
  ghost predicate TakesUsed(managed: bool, listing: seq<Eni>, limit: int, cardCount: int, page: seq<Eni>,
                            create: seq<int>) {
    exists k | 0 <= k < Least(|page|, |create|) :: PutToUse(managed, listing, limit, cardCount, page[k].id)
  }

  /** An attached interface of the listing was made by the controller and is put to use already. */
  ghost predicate UsesMade(managed: bool, listing: seq<Eni>, limit: int, cardCount: int, instance: string) {
    exists k | 0 <= k < |listing| ::
      HasTags(listing[k], instance) && PutToUse(managed, listing, limit, cardCount, listing[k].id)
  }

  /** When the list a complete attempt returns names an interface twice: exactly when the reuse query hands it, for a
      missing card, one that the listing already puts to use. Where the missing cards take every interface made so
      far, that is exactly when the listing puts one of those to use. */
  lemma NamesTwiceIff(before: Enis, after: Enis, managed: bool, instance: string, limit: int, cardCount: int,
                      listing: seq<Eni>, eris: seq<Eri>)
    requires InstanceListing(listing)
    requires SelectEffect(before, after, managed, instance, limit, cardCount, listing, Ok(eris))
    ensures
      var p := PlanFor(managed, listing, limit, cardCount).value;
      && (forall page :: ReusedThenMade(before, page, instance, p.create, p.share, eris[|p.eris|..]) ==>
            (Doubled(eris) <==> TakesUsed(managed, listing, limit, cardCount, page, p.create)))
      && (|Tagged(before, instance)| <= Least(|p.create|, PAGE_SIZE) ==>
            (Doubled(eris) <==> UsesMade(managed, listing, limit, cardCount, instance)))
  {
    var p := PlanFor(managed, listing, limit, cardCount).value;
    forall page | ReusedThenMade(before, page, instance, p.create, p.share, eris[|p.eris|..])
      ensures Doubled(eris) <==> TakesUsed(managed, listing, limit, cardCount, page, p.create)
    {
      NamesTwiceFor(before, managed, instance, limit, cardCount, listing, eris, page);
    }
    var page: seq<Eni> :| ReusedThenMade(before, page, instance, p.create, p.share, eris[|p.eris|..]);
    if |Tagged(before, instance)| <= Least(|p.create|, PAGE_SIZE) {
      TakesAll(before, managed, instance, limit, cardCount, listing, page, p.create);
    }
  }

  lemma NamesTwiceFor(before: Enis, managed: bool, instance: string, limit: int, cardCount: int,
                      listing: seq<Eni>, eris: seq<Eri>, page: seq<Eni>)
    requires InstanceListing(listing) && Planned(before, listing, managed, instance, limit, cardCount)
    requires
      var p := PlanFor(managed, listing, limit, cardCount).value;
      && |eris| == |p.eris| + |p.create| && eris[..|p.eris|] == p.eris && OnePerCard(eris[|p.eris|..], p.create)
      && ReusedThenMade(before, page, instance, p.create, p.share, eris[|p.eris|..])
    ensures
      var p := PlanFor(managed, listing, limit, cardCount).value;
      Doubled(eris) <==> TakesUsed(managed, listing, limit, cardCount, page, p.create)
  {
    var p := PlanFor(managed, listing, limit, cardCount).value;
    PlannedOnce(managed, listing, limit, cardCount);
    PlannedWereThere(before, managed, instance, limit, cardCount, listing);
    DoubledOnPage(before, page, instance, p, eris);
    TakenIffUsed(managed, listing, limit, cardCount, page);
  }

  lemma PlannedOnce(managed: bool, listing: seq<Eni>, limit: int, cardCount: int)
    requires InstanceListing(listing) && PlanFor(managed, listing, limit, cardCount).Ok?
    ensures OncePerId(PlanFor(managed, listing, limit, cardCount).value.eris)
  {
    PlanPartitionsCards(managed, listing, limit, cardCount);
  }

  lemma TakenIffUsed(managed: bool, listing: seq<Eni>, limit: int, cardCount: int, page: seq<Eni>)
    requires PlanFor(managed, listing, limit, cardCount).Ok?
    ensures
      var p := PlanFor(managed, listing, limit, cardCount).value;
      TakesUsed(managed, listing, limit, cardCount, page, p.create) <==> PageTaken(p, page)
  {
    var p := PlanFor(managed, listing, limit, cardCount).value;
    forall k | 0 <= k < Least(|page|, |p.create|)
      ensures Plans(p, page[k].id) <==> PutToUse(managed, listing, limit, cardCount, page[k].id)
    {
      PlansIff(managed, listing, limit, cardCount, page[k].id);
    }
  }

  lemma PlannedWereThere(before: Enis, managed: bool, instance: string, limit: int, cardCount: int, listing: seq<Eni>)
    requires Planned(before, listing, managed, instance, limit, cardCount)
    ensures forall e <- PlanFor(managed, listing, limit, cardCount).value.eris ::
      e.id in before && e.id in AttachedTo(before, instance)
  {
    PlannedAreListed(managed, listing, limit, cardCount);
  }

  /** The reuse query hands out an interface that is planned already. */
  ghost predicate PageTaken(p: Plan, page: seq<Eni>) {
    exists k | 0 <= k < Least(|page|, |p.create|) :: Plans(p, page[k].id)
  }

  lemma DoubledOnPage(before: Enis, page: seq<Eni>, instance: string, p: Plan, eris: seq<Eri>)
    requires OncePerId(p.eris) && |eris| == |p.eris| + |p.create| && eris[..|p.eris|] == p.eris
    requires OnePerCard(eris[|p.eris|..], p.create)
    requires ReusedThenMade(before, page, instance, p.create, p.share, eris[|p.eris|..])
    requires forall e <- p.eris :: e.id in before
    ensures Doubled(eris) <==> PageTaken(p, page)
  {
    var tail := eris[|p.eris|..];
    assert eris == p.eris + tail;
    DoubledAcross(p.eris, tail);
    MeetsThePage(before, page, instance, p, tail);
  }

  lemma MeetsThePage(before: Enis, page: seq<Eni>, instance: string, p: Plan, tail: seq<Eri>)
    requires ReusedThenMade(before, page, instance, p.create, p.share, tail) && |tail| == |p.create|
    requires forall e <- p.eris :: e.id in before
    ensures Meet(p.eris, tail) <==> PageTaken(p, page)
  {
    var reused := Reused(page, instance, p.share, p.create);
    assert forall k :: 0 <= k < |reused| ==> tail[k] == reused[k] && reused[k].id == page[k].id;
    if Meet(p.eris, tail) {
      var i, k :| 0 <= i < |p.eris| && 0 <= k < |tail| && p.eris[i].id == tail[k].id;
      assert p.eris[i] in p.eris && k < |reused|;
      assert Plans(p, page[k].id);
    }
    if k :| 0 <= k < Least(|page|, |p.create|) && Plans(p, page[k].id) {
      var i :| 0 <= i < |p.eris| && p.eris[i].id == page[k].id;
      assert p.eris[i].id == tail[k].id;
    }
  }

  /** Where one page holds everything, taking a used interface is using one of those made so far. */
  lemma TakesAll(before: Enis, managed: bool, instance: string, limit: int, cardCount: int, listing: seq<Eni>,
                 page: seq<Eni>, create: seq<int>)
    requires IsPage(before, listing, AttachedTo(before, instance))
    requires IsPage(before, page, Tagged(before, instance)) && |Tagged(before, instance)| <= Least(|create|, PAGE_SIZE)
    ensures TakesUsed(managed, listing, limit, cardCount, page, create) <==>
      UsesMade(managed, listing, limit, cardCount, instance)
  {
    if TakesUsed(managed, listing, limit, cardCount, page, create) {
      var k :| 0 <= k < Least(|page|, |create|) && PutToUse(managed, listing, limit, cardCount, page[k].id);
      var j :| 0 <= j < |listing| && listing[j].id == page[k].id;
      assert page[k] in page && listing[j] in listing;
      assert HasTags(listing[j], instance);
    }
    if UsesMade(managed, listing, limit, cardCount, instance) {
      var j :| 0 <= j < |listing| && HasTags(listing[j], instance)
        && PutToUse(managed, listing, limit, cardCount, listing[j].id);
      assert listing[j] in listing && listing[j].id in Tagged(before, instance);
      assert Lists(page, listing[j].id);
      var k :| 0 <= k < |page| && page[k].id == listing[j].id;
      assert k < Least(|page|, |create|);
    }
  }

  /** It does happen: after the record of an instance was lost, an interface made earlier serves card 0, the planner
      keeps it there, and the reuse query hands it out again for card 1. */
  lemma LostRecordNamesTwice(managed: bool, instance: string, e: Eni)
    requires IsRdma(e) && e.queuePairs == Some(10) && e.card == Some(0) && !e.isPrimary
    requires e.instance == Some(instance) && e.status == Some(InUse) && HasTags(e, instance)
    ensures
      var enis, eris := map[e.id := e], [ToEri(e, 10), ReusedEri(e, instance, 10, 1)];
      && SelectEffect(enis, enis, managed, instance, 20, 2, [e], Ok(eris)) && Doubled(eris)
      && UsesMade(managed, [e], 20, 2, instance)
  {
    var enis, eris := map[e.id := e], [ToEri(e, 10), ReusedEri(e, instance, 10, 1)];
    var p := Plan([ToEri(e, 10)], [1], 10);
    KeptOnCardZero(managed, e);
    assert AttachedTo(enis, instance) == {e.id} && Tagged(enis, instance) == {e.id};
    assert [e][0] == e && Lists([e], e.id) && IsPage(enis, [e], {e.id});
    assert eris[1..] == Reused([e], instance, 10, [1]);
    assert ReusedThenMade(enis, [e], instance, [1], 10, eris[1..]);
    assert Names(eris[1..], e.id) by {
      assert eris[1..][0].id == e.id;
    }
    assert Delivered(enis, enis, instance, p, eris);
    assert SameButTags(e, e);
    assert eris[0].id == eris[1].id;
    assert FirstOnItsCard(managed, [e], 0);
  }

  lemma KeptOnCardZero(managed: bool, e: Eni)
    requires IsRdma(e) && e.queuePairs == Some(10) && e.card == Some(0) && HasCreatorTag(e)
    ensures PlanFor(managed, [e], 20, 2) == Ok(Plan([ToEri(e, 10)], [1], 10))
  {
    assert [e][1..] == [];
    assert FirstPerCard(managed, [e], {}) == [e] && Cards([e]) == {0};
    assert Missing({0}, 0, 2) == Missing({0}, 1, 2) == [1] by {
      assert Missing({0}, 2, 2) == [];
    }
    assert QueuePairTotal([e]) == 10;
    assert ToEris([e], 10) == [ToEri(e, 10)];
  }

  // ---------- After nothing but failed attempts ----------

  predicate OncePerCard(eris: seq<Eri>) {
    forall i, j | 0 <= i < j < |eris| :: eris[i].card != eris[j].card
  }

  /** What the cloud guarantees of an instance's listing does not depend on order, statuses or tags. */
  lemma StillInstanceListing(a: seq<Eni>, b: seq<Eni>)
    requires InstanceListing(a) && SameInterfaces(a, b)
    ensures InstanceListing(b)
  {
    forall f | f in b
      ensures exists e :: e in a && Alike(f, e)
    {
      assert Matched(f, a);
    }
    forall f, g | f in b && g in b && f.isPrimary && g.isPrimary
      ensures f.id == g.id
    {
      var e, h :| e in a && Alike(f, e) && h in a && Alike(g, h);
      OnlyPrimary(a, e, h);
    }
    OnePrimary(b);
  }

  lemma OnlyPrimary(a: seq<Eni>, e: Eni, h: Eni)
    requires |Primaries(a)| <= 1 && e in a && h in a && e.isPrimary && h.isPrimary
    ensures e == h
  {
    PrimariesAre(a);
    assert e in Primaries(a) && h in Primaries(a);
  }

  /** One entry per interface and per card, and one on every card where there is something to hand out. */
  ghost predicate WellChosen(p: Plan, cardCount: int, eris: seq<Eri>) {
    && OncePerId(eris) && OncePerCard(eris)
    && (p.share > 0 ==> forall c | 0 <= c < cardCount :: OnCard(eris, c))
  }

  /** The list a complete attempt returns, whatever attempts failed before it, names no interface and no card twice;
      and if there were queue pairs to hand out it serves every card of the instance. */
  lemma CompleteListIsWellChosen(run: Run, managed: bool, instance: string, limit: int, cardCount: int,
                                 listing: seq<Eni>, i: nat)
    requires IsAttemptRun(run, managed, instance, limit, cardCount) && i < |run.results| && run.results[i].Ok?
    requires Begins(run.states[0], managed, instance, limit, cardCount, listing) && InstanceListing(listing)
    ensures WellChosen(PlanFor(managed, listing, limit, cardCount).value, cardCount, run.results[i].value)
  {
    BegunKeeps(run, managed, instance, limit, cardCount, listing, i);
    assert IsAttempt(run, managed, instance, limit, cardCount, i);
    StepIsWellChosen(run.states[0], run.begun[i], run.states[i + 1], managed, instance, limit, cardCount, listing,
                     run.listings[i], run.results[i].value);
  }

  /** The listing of a later attempt is as sound as the first one and is planned for the same cards. */
  lemma StepListed(start: Enis, now: Enis, managed: bool, instance: string, limit: int, cardCount: int, first: seq<Eni>,
                   listing: seq<Eni>)
    requires Begins(start, managed, instance, limit, cardCount, first) && InstanceListing(first)
    requires Kept(start, now, instance, PlanFor(managed, first, limit, cardCount).value)
    requires Planned(now, listing, managed, instance, limit, cardCount)
    ensures InstanceListing(listing)
    ensures
      var p, q := PlanFor(managed, first, limit, cardCount).value, PlanFor(managed, listing, limit, cardCount).value;
      q.create == p.create && q.share == p.share
  {
    SamePlan(start, now, managed, instance, limit, cardCount, first, listing);
    StillInstanceListing(first, listing);
  }

  lemma StepIsWellChosen(start: Enis, now: Enis, next: Enis, managed: bool, instance: string, limit: int,
                         cardCount: int, first: seq<Eni>, listing: seq<Eni>, eris: seq<Eri>)
    requires Begins(start, managed, instance, limit, cardCount, first) && InstanceListing(first)
    requires Kept(start, now, instance, PlanFor(managed, first, limit, cardCount).value)
    requires SelectEffect(now, next, managed, instance, limit, cardCount, listing, Ok(eris))
    ensures WellChosen(PlanFor(managed, first, limit, cardCount).value, cardCount, eris)
  {
    var p, q := PlanFor(managed, first, limit, cardCount).value, PlanFor(managed, listing, limit, cardCount).value;
    StepListed(start, now, managed, instance, limit, cardCount, first, listing);
    NothingMadeYet(start, now, instance, p);
    var page: seq<Eni> :| ReusedThenMade(now, page, instance, q.create, q.share, eris[|q.eris|..]);
    NoneTaken(now, managed, instance, limit, cardCount, listing, page, q.create);
    NamesTwiceFor(now, managed, instance, limit, cardCount, listing, eris, page);
    CardsOnce(managed, listing, limit, cardCount, eris);
  }

  lemma NoneTaken(now: Enis, managed: bool, instance: string, limit: int, cardCount: int, listing: seq<Eni>,
                  page: seq<Eni>, create: seq<int>)
    requires IsPage(now, listing, AttachedTo(now, instance)) && IsPage(now, page, Tagged(now, instance))
    requires Tagged(now, instance) !! AttachedTo(now, instance)
    ensures !TakesUsed(managed, listing, limit, cardCount, page, create)
  {
    forall k | 0 <= k < |page|
      ensures forall e <- listing :: e.id != page[k].id
    {
      assert page[k] in page;
    }
  }

  lemma CardsOnce(managed: bool, listing: seq<Eni>, limit: int, cardCount: int, eris: seq<Eri>)
    requires InstanceListing(listing) && PlanFor(managed, listing, limit, cardCount).Ok?
    requires
      var p := PlanFor(managed, listing, limit, cardCount).value;
      |eris| == |p.eris| + |p.create| && eris[..|p.eris|] == p.eris && OnePerCard(eris[|p.eris|..], p.create)
    ensures OncePerCard(eris)
    ensures PlanFor(managed, listing, limit, cardCount).value.share > 0 ==>
      forall c | 0 <= c < cardCount :: OnCard(eris, c)
  {
    PlanPartitionsCards(managed, listing, limit, cardCount);
    ListServes(PlanFor(managed, listing, limit, cardCount).value, cardCount, eris);
  }

  /** The plan's entries and one for each card to fill, together. */
  lemma ListServes(p: Plan, cardCount: int, eris: seq<Eri>)
    requires |eris| == |p.eris| + |p.create| && eris[..|p.eris|] == p.eris && OnePerCard(eris[|p.eris|..], p.create)
    requires OncePerCard(p.eris) && forall c <- p.create :: !OnCard(p.eris, c)
    requires forall i, j :: 0 <= i < j < |p.create| ==> p.create[i] != p.create[j]
    requires p.share > 0 ==> forall c :: 0 <= c < cardCount ==> OnCard(p.eris, c) || c in p.create
    ensures OncePerCard(eris) && (p.share > 0 ==> forall c | 0 <= c < cardCount :: OnCard(eris, c))
  {
    assert eris == p.eris + eris[|p.eris|..];
    CardsApart(p.eris, eris[|p.eris|..], p.create);
    if p.share > 0 {
      forall c | 0 <= c < cardCount
        ensures OnCard(eris, c)
      {
        ServedInParts(p.eris, eris[|p.eris|..], p.create, c);
      }
    }
  }

  /** Entries on distinct cards, followed by one for each of some other distinct cards. */
  lemma CardsApart(planned: seq<Eri>, tail: seq<Eri>, create: seq<int>)
    requires OncePerCard(planned) && OnePerCard(tail, create)
    requires forall i, j :: 0 <= i < j < |create| ==> create[i] != create[j]
    requires forall c <- create :: !OnCard(planned, c)
    ensures OncePerCard(planned + tail)
  {
    var n, eris := |planned|, planned + tail;
    forall i, j | 0 <= i < j < |eris|
      ensures eris[i].card != eris[j].card
    {
      if i < n <= j {
        assert eris[j].card == create[j - n] && create[j - n] in create;
        assert planned[i].card == eris[i].card;
      }
    }
  }

  lemma ServedInParts(planned: seq<Eri>, tail: seq<Eri>, create: seq<int>, c: int)
    requires OnePerCard(tail, create) && (OnCard(planned, c) || c in create)
    ensures OnCard(planned + tail, c)
  {
    if c in create {
      var k :| 0 <= k < |create| && create[k] == c;
      assert (planned + tail)[|planned| + k].card == c;
    } else {
      var k :| 0 <= k < |planned| && planned[k].card == c;
      assert (planned + tail)[k].card == c;
    }
  }
}
