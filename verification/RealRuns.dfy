/** A plan that went through the whole system, from its attempts to an all-ready record, has been carried out: the
    queue-pair budget and the second plan, stated for what the cloud then lists. */
module RealRuns {
  import opened Prelude
  import opened EniTypes
  import opened CloudApi
  import opened Cloud
  import opened Planner
  import opened PlannerProperties
  import opened PlanExecution
  import opened Replan
  import opened Creation
  import opened SelectEris
  import opened Retry
  import opened SelectedList
  import opened EndToEnd
  import opened BareView
  import opened RecordHistory

  // ---------- Carried out ----------

  lemma OldConverted(now: Enis, start: Enis, log: seq<Event>, instance: string, listing: seq<Eni>, p: Plan,
                     eris: seq<Eri>, final: seq<Eni>)
    requires Through(now, start, log, instance, listing, p, eris)
    requires Exactly(After(start, log), final, AttachedTo(After(start, log), instance))
    requires OldOrder(listing, final, TailIds(p, eris))
    ensures Without(BareAll(final), TailIds(p, eris)) == Convert(p, BareAll(listing))
  {
    var rest := Without(final, TailIds(p, eris));
    BareWithout(final, TailIds(p, eris));
    FilterParts(final, TailIds(p, eris));
    forall k | 0 <= k < |listing|
      ensures Bare(rest[k]) == Bare(ConvertOne(p, listing[k]))
    {
      assert rest[k] in rest && listing[k] in listing;
      ListingEnds(now, start, log, instance, listing, p, eris, listing[k]);
    }
    BareConversion(p, listing, rest);
  }

  lemma MadeExactly(now: Enis, start: Enis, log: seq<Event>, instance: string, listing: seq<Eni>, p: Plan,
                    eris: seq<Eri>, final: seq<Eni>)
    requires Through(now, start, log, instance, listing, p, eris)
    requires Exactly(After(start, log), final, AttachedTo(After(start, log), instance))
    ensures forall e <- eris[|p.eris|..] :: e.id in After(start, log)
    ensures
      multiset(Only(BareAll(final), TailIds(p, eris))) ==
      multiset(BareAll(MadeNow(After(start, log), eris[|p.eris|..])))
  {
    var after, tail, ids := After(start, log), eris[|p.eris|..], TailIds(p, eris);
    TailStands(now, start, log, instance, listing, p, eris);
    var made, only := MadeNow(after, tail), Only(final, ids);
    OnlyDistinct(final, ids);
    forall k | 0 <= k < |made|
      ensures made[k] in only
    {
      MadeIsListed(now, start, log, instance, listing, p, eris, final, k);
    }
    OnlyAreMade(after, final, tail, ids);
    BareWithout(final, ids);
    BareSame(only, made);
  }

  lemma OnlyAreMade(after: Enis, final: seq<Eni>, tail: seq<Eri>, ids: set<EniId>)
    requires (forall e <- final :: e.id in after && after[e.id] == e) && (forall t <- tail :: t.id in after)
    requires ids == set t <- tail :: t.id
    ensures forall e :: e in Only(final, ids) ==> e in MadeNow(after, tail)
  {
    FilterParts(final, ids);
    forall e | e in Only(final, ids)
      ensures e in MadeNow(after, tail)
    {
      var t :| t in tail && t.id == e.id;
      var k :| 0 <= k < |tail| && tail[k] == t;
      assert MadeNow(after, tail)[k] == e;
    }
  }

  lemma MadeAsPlanned(now: Enis, start: Enis, log: seq<Event>, instance: string, listing: seq<Eni>, p: Plan,
                      eris: seq<Eri>)
    requires Through(now, start, log, instance, listing, p, eris)
    ensures forall e <- eris[|p.eris|..] :: e.id in After(start, log)
    ensures
      var made := MadeNow(After(start, log), eris[|p.eris|..]);
      && MadeFor(p, BareAll(listing), BareAll(made)) && Ids(BareAll(made)) == TailIds(p, eris)
      && forall e <- BareAll(made) :: HasCreatorTag(e)
  {
    var after, tail := After(start, log), eris[|p.eris|..];
    TailStands(now, start, log, instance, listing, p, eris);
    var made := MadeNow(after, tail);
    BareAt(made);
    BareDistinct(made);
    BareIds(listing);
    BareIds(made);
    forall k | 0 <= k < |made|
      ensures
        var m := BareAll(made)[k];
        && IsRdma(m) && m.queuePairs == Some(p.share) && CardIndex(m) == p.create[k] && HasCreatorTag(m)
        && !m.isPrimary && m.id !in Ids(BareAll(listing)) && after[tail[k].id].id == tail[k].id
    {
      TailEnds(now, start, log, instance, listing, p, eris, k);
    }
    MadeIds(after, tail);
  }

  /** What the cloud guarantees of one interface of a listing, and where a primary among the final ones comes from. */
  ghost predicate SoundFrom(listing: seq<Eni>, e: Eni) {
    && (if IsRdma(e) then e.queuePairs.GetOr(0) > 0 else e.queuePairs.GetOr(0) <= 0)
    && (e.isPrimary ==> CardIndex(e) == 0 && exists x :: x in listing && x.isPrimary && x.id == e.id)
  }

  /** What the cloud guarantees of a listing still holds of the final one. */
  lemma FinalSound(now: Enis, start: Enis, log: seq<Event>, managed: bool, instance: string, limit: int, cardCount: int,
                   listing: seq<Eni>, p: Plan, eris: seq<Eri>, e: Eni)
    requires Through(now, start, log, instance, listing, p, eris)
    requires PlanFor(managed, listing, limit, cardCount) == Ok(p)
    requires e.id in AttachedTo(After(start, log), instance) && After(start, log)[e.id] == e
    ensures SoundFrom(listing, e)
  {
    AttachedThen(now, start, log, instance, listing, p, eris, e.id);
    if e.id in TailIds(p, eris) {
      PlanParts(managed, listing, limit, cardCount);
      var t :| t in eris[|p.eris|..] && t.id == e.id;
      var k :| 0 <= k < |eris[|p.eris|..]| && eris[|p.eris|..][k] == t;
      TailEnds(now, start, log, instance, listing, p, eris, k);
    } else {
      assert Lists(listing, e.id);
      var j :| 0 <= j < |listing| && listing[j].id == e.id;
      assert listing[j] in listing;
      ListingEnds(now, start, log, instance, listing, p, eris, listing[j]);
      ConvertedSound(managed, listing, limit, cardCount, p, listing[j], e);
    }
  }

  /** Converting as planned keeps what the cloud guarantees. */
  lemma ConvertedSound(managed: bool, listing: seq<Eni>, limit: int, cardCount: int, p: Plan, x: Eni, e: Eni)
    requires InstanceListing(listing) && PlanFor(managed, listing, limit, cardCount) == Ok(p)
    requires x in listing && e.id == x.id && Bare(e) == Bare(ConvertOne(p, x))
    ensures SoundFrom(listing, e)
  {
    PlanParts(managed, listing, limit, cardCount);
    SwitchedIsConversion(managed, listing, limit, cardCount);
    assert ConvertOne(p, x) != x ==> x in Conversion(managed, listing, limit, cardCount);
  }

  lemma FinalListing(now: Enis, start: Enis, log: seq<Event>, managed: bool, instance: string, limit: int,
                     cardCount: int, listing: seq<Eni>, p: Plan, eris: seq<Eri>, final: seq<Eni>)
    requires Through(now, start, log, instance, listing, p, eris)
    requires PlanFor(managed, listing, limit, cardCount) == Ok(p)
    requires Exactly(After(start, log), final, AttachedTo(After(start, log), instance))
    ensures InstanceListing(final)
  {
    forall e | e in final
      ensures SoundFrom(listing, e)
    {
      FinalSound(now, start, log, managed, instance, limit, cardCount, listing, p, eris, e);
    }
    forall e, f | e in final && f in final && e.isPrimary && f.isPrimary
      ensures e.id == f.id
    {
      var x :| x in listing && x.isPrimary && x.id == e.id;
      var y :| y in listing && y.isPrimary && y.id == f.id;
      OnlyPrimary(listing, x, y);
    }
    OnePrimary(final);
  }

  /** Such a record's plan has been carried out, as far as planning looks at interfaces. */
  lemma CarriedThrough(now: Enis, start: Enis, log: seq<Event>, managed: bool, instance: string, limit: int,
                       cardCount: int, listing: seq<Eni>, p: Plan, eris: seq<Eri>, final: seq<Eni>)
    requires Through(now, start, log, instance, listing, p, eris)
    requires PlanFor(managed, listing, limit, cardCount) == Ok(p)
    requires Exactly(After(start, log), final, AttachedTo(After(start, log), instance))
    requires OldOrder(listing, final, TailIds(p, eris))
    ensures forall e <- eris[|p.eris|..] :: e.id in After(start, log)
    ensures Carried(managed, BareAll(listing), limit, cardCount, BareAll(MadeNow(After(start, log), eris[|p.eris|..])),
                    BareAll(final))
  {
    MadeAsPlanned(now, start, log, instance, listing, p, eris);
    OldConverted(now, start, log, instance, listing, p, eris, final);
    MadeExactly(now, start, log, instance, listing, p, eris, final);
    FinalListing(now, start, log, managed, instance, limit, cardCount, listing, p, eris, final);
    BareListing(listing);
    BareListing(final);
    BarePlan(managed, listing, limit, cardCount);
  }

  // ---------- In any order ----------

  /** The final listing with the old interfaces first, as they were listed, and then the made ones. */
  function InOrder(enis: Enis, listing: seq<Eni>, tail: seq<Eri>): seq<Eni>
    requires (forall x <- listing :: x.id in enis) && forall e <- tail :: e.id in enis
  {
    seq(|listing|, k requires 0 <= k < |listing| => enis[listing[k].id]) + MadeNow(enis, tail)
  }

  lemma {:induction false} WithoutJoins(a: seq<Eni>, b: seq<Eni>, ids: set<EniId>)
    requires (forall e <- a :: e.id !in ids) && forall e <- b :: e.id in ids
    ensures Without(a + b, ids) == a
  {
    if a != [] {
      assert (a + b)[1..] == a[1..] + b;
      WithoutJoins(a[1..], b, ids);
    } else {
      assert a + b == b;
      AllWithin(b, ids);
    }
  }

  lemma {:induction false} AllWithin(b: seq<Eni>, ids: set<EniId>)
    requires forall e <- b :: e.id in ids
    ensures Without(b, ids) == []
  {
    if b != [] {
      AllWithin(b[1..], ids);
    }
  }

  lemma OrderedParts(now: Enis, start: Enis, log: seq<Event>, instance: string, listing: seq<Eni>, p: Plan,
                     eris: seq<Eri>)
    requires Through(now, start, log, instance, listing, p, eris)
    ensures (forall x <- listing :: x.id in After(start, log))
    ensures forall e <- eris[|p.eris|..] :: e.id in After(start, log)
    ensures
      var after, made := After(start, log), MadeNow(After(start, log), eris[|p.eris|..]);
      && (forall k :: 0 <= k < |listing| ==>
            after[listing[k].id].id == listing[k].id && listing[k].id !in TailIds(p, eris)
            && listing[k].id in AttachedTo(after, instance))
      && (forall k :: 0 <= k < |made| ==>
            made[k].id == eris[|p.eris|..][k].id && made[k].id in TailIds(p, eris)
            && made[k].id in AttachedTo(after, instance) && after[made[k].id] == made[k])
      && DistinctIds(made)
  {
    var after, tail := After(start, log), eris[|p.eris|..];
    TailStands(now, start, log, instance, listing, p, eris);
    forall x | x in listing
      ensures x.id in after && after[x.id].id == x.id && x.id !in TailIds(p, eris)
      ensures x.id in AttachedTo(after, instance)
    {
      ListingEnds(now, start, log, instance, listing, p, eris, x);
    }
    forall k | 0 <= k < |tail|
      ensures tail[k].id in TailIds(p, eris) && after[tail[k].id].id == tail[k].id
      ensures tail[k].id in AttachedTo(after, instance)
    {
      assert tail[k] in tail;
      TailEnds(now, start, log, instance, listing, p, eris, k);
    }
  }

  lemma AttachedListed(now: Enis, start: Enis, log: seq<Event>, instance: string, listing: seq<Eni>, p: Plan,
                       eris: seq<Eri>, id: EniId)
    requires Through(now, start, log, instance, listing, p, eris)
    requires id in AttachedTo(After(start, log), instance)
    ensures (forall x <- listing :: x.id in After(start, log))
    ensures forall e <- eris[|p.eris|..] :: e.id in After(start, log)
    ensures Lists(InOrder(After(start, log), listing, eris[|p.eris|..]), id)
  {
    AttachedThen(now, start, log, instance, listing, p, eris, id);
    ListedInOrder(now, start, log, instance, listing, p, eris, id);
  }

  lemma OrderedIsExact(now: Enis, start: Enis, log: seq<Event>, instance: string, listing: seq<Eni>, p: Plan,
                       eris: seq<Eri>)
    requires Through(now, start, log, instance, listing, p, eris)
    ensures (forall x <- listing :: x.id in After(start, log))
    ensures forall e <- eris[|p.eris|..] :: e.id in After(start, log)
    ensures
      var final := InOrder(After(start, log), listing, eris[|p.eris|..]);
      && Exactly(After(start, log), final, AttachedTo(After(start, log), instance))
      && OldOrder(listing, final, TailIds(p, eris))
  {
    var after, tail := After(start, log), eris[|p.eris|..];
    OrderedParts(now, start, log, instance, listing, p, eris);
    var final := InOrder(after, listing, tail);
    forall id | id in AttachedTo(after, instance)
      ensures Lists(final, id)
    {
      AttachedListed(now, start, log, instance, listing, p, eris, id);
    }
    OrderedDistinct(after, listing, MadeNow(after, tail), TailIds(p, eris));
    OldComeFirst(after, listing, MadeNow(after, tail), TailIds(p, eris));
    OrderedElements(after, listing, tail, AttachedTo(after, instance));
  }

  lemma OrderedElements(after: Enis, listing: seq<Eni>, tail: seq<Eri>, wanted: set<EniId>)
    requires forall x <- listing :: x.id in wanted && x.id in after && after[x.id].id == x.id
    requires forall e <- tail :: e.id in wanted && e.id in after && after[e.id].id == e.id
    ensures forall e <- InOrder(after, listing, tail) :: e.id in wanted && e.id in after && after[e.id] == e
  {
    var final := InOrder(after, listing, tail);
    forall k | 0 <= k < |final|
      ensures final[k].id in wanted && final[k].id in after && after[final[k].id] == final[k]
    {
      if k < |listing| {
        assert listing[k] in listing;
      } else {
        assert tail[k - |listing|] in tail;
      }
    }
  }

  lemma OrderedDistinct(after: Enis, listing: seq<Eni>, made: seq<Eni>, ids: set<EniId>)
    requires forall x <- listing :: x.id in after && after[x.id].id == x.id
    requires DistinctIds(listing) && DistinctIds(made)
    requires (forall k :: 0 <= k < |listing| ==> listing[k].id !in ids)
    requires forall k :: 0 <= k < |made| ==> made[k].id in ids
    ensures DistinctIds(seq(|listing|, k requires 0 <= k < |listing| => after[listing[k].id]) + made)
  {}

  lemma OldComeFirst(after: Enis, listing: seq<Eni>, made: seq<Eni>, ids: set<EniId>)
    requires forall x <- listing :: x.id in after && after[x.id].id == x.id
    requires (forall k :: 0 <= k < |listing| ==> listing[k].id !in ids)
    requires forall k :: 0 <= k < |made| ==> made[k].id in ids
    ensures OldOrder(listing, seq(|listing|, k requires 0 <= k < |listing| => after[listing[k].id]) + made, ids)
  {
    var kept := seq(|listing|, k requires 0 <= k < |listing| => after[listing[k].id]);
    assert forall k :: 0 <= k < |listing| ==> kept[k].id == listing[k].id;
    WithoutJoins(kept, made, ids);
  }

  lemma ListedInOrder(now: Enis, start: Enis, log: seq<Event>, instance: string, listing: seq<Eni>, p: Plan,
                      eris: seq<Eri>, id: EniId)
    requires Through(now, start, log, instance, listing, p, eris)
    requires id in AttachedTo(now, instance) || id in TailIds(p, eris)
    ensures (forall x <- listing :: x.id in After(start, log))
    ensures forall e <- eris[|p.eris|..] :: e.id in After(start, log)
    ensures Lists(InOrder(After(start, log), listing, eris[|p.eris|..]), id)
  {
    OrderedParts(now, start, log, instance, listing, p, eris);
    assert id in AttachedTo(now, instance) ==> Lists(listing, id);
    InOrderLists(After(start, log), listing, eris[|p.eris|..], id);
  }

  lemma InOrderLists(after: Enis, listing: seq<Eni>, tail: seq<Eri>, id: EniId)
    requires forall x <- listing :: x.id in after && after[x.id].id == x.id
    requires (forall e <- tail :: e.id in after) && forall k :: 0 <= k < |tail| ==> after[tail[k].id].id == tail[k].id
    requires Lists(listing, id) || id in set e <- tail :: e.id
    ensures Lists(InOrder(after, listing, tail), id)
  {
    var final := InOrder(after, listing, tail);
    if Lists(listing, id) {
      var k :| 0 <= k < |listing| && listing[k].id == id;
      assert final[k].id == id;
    } else {
      var t :| t in tail && t.id == id;
      var k :| 0 <= k < |tail| && tail[k] == t;
      assert final[|listing| + k].id == id;
    }
  }

  lemma ExactlyAgree(enis: Enis, a: seq<Eni>, b: seq<Eni>, wanted: set<EniId>)
    requires Exactly(enis, a, wanted) && Exactly(enis, b, wanted)
    ensures SameInterfaces(a, b)
  {
    forall e | e in a
      ensures Matched(e, b)
    {
      assert Lists(b, e.id);
      var k :| 0 <= k < |b| && b[k].id == e.id;
      assert b[k] in b;
    }
    forall f | f in b
      ensures Matched(f, a)
    {
      assert Lists(a, f.id);
      var k :| 0 <= k < |a| && a[k].id == f.id;
      assert a[k] in a;
    }
  }

  lemma ThroughKeepsBudget(now: Enis, start: Enis, log: seq<Event>, managed: bool, instance: string, limit: int,
                           cardCount: int, listing: seq<Eni>, p: Plan, eris: seq<Eri>, final: seq<Eni>)
    requires Through(now, start, log, instance, listing, p, eris)
    requires PlanFor(managed, listing, limit, cardCount) == Ok(p)
    requires Exactly(After(start, log), final, AttachedTo(After(start, log), instance))
    requires QueuePairTotal(listing) <= limit
    ensures QueuePairTotal(final) <= limit
  {
    var tail := eris[|p.eris|..];
    OrderedIsExact(now, start, log, instance, listing, p, eris);
    var ordered := InOrder(After(start, log), listing, tail);
    CarriedThrough(now, start, log, managed, instance, limit, cardCount, listing, p, eris, ordered);
    BareTotals(listing);
    BareTotals(ordered);
    PlanKeepsBudget(managed, BareAll(listing), limit, cardCount, BareAll(MadeNow(After(start, log), tail)),
                    BareAll(ordered));
    ExactlyAgree(After(start, log), ordered, final, AttachedTo(After(start, log), instance));
    SameTotal(ordered, final);
  }

  /** The second plan names exactly the entries of the list, on their cards, and creates nothing. */
  ghost predicate PlansAgain(eris: seq<Eri>, again: Result<Plan, PlanError>) {
    && again.Ok? && again.value.create == []
    && forall id, card :: Sits(again.value.eris, id, card) <==> Sits(eris, id, card)
  }

  // ---------- Planning again ----------

  lemma SameAgainThrough(now: Enis, start: Enis, log: seq<Event>, managed: bool, instance: string, limit: int,
                         cardCount: int, listing: seq<Eni>, p: Plan, eris: seq<Eri>, final: seq<Eni>)
    requires Through(now, start, log, instance, listing, p, eris)
    requires PlanFor(managed, listing, limit, cardCount) == Ok(p)
    requires Exactly(After(start, log), final, AttachedTo(After(start, log), instance))
    requires OldOrder(listing, final, TailIds(p, eris))
    ensures forall e <- eris[|p.eris|..] :: e.id in After(start, log)
    ensures SameAgain(p, MadeNow(After(start, log), eris[|p.eris|..]), PlanFor(managed, final, limit, cardCount)) <==>
      || !Unowned(managed, Conversion(managed, listing, limit, cardCount))
      || Leftover(managed, listing, limit, cardCount) > 0
  {
    CarriedThrough(now, start, log, managed, instance, limit, cardCount, listing, p, eris, final);
    var made := MadeNow(After(start, log), eris[|p.eris|..]);
    BarePlan(managed, listing, limit, cardCount);
    BarePlan(managed, final, limit, cardCount);
    BareLeftover(managed, listing, limit, cardCount);
    BareConversionOwned(managed, listing, limit, cardCount);
    ReplanExactly(managed, BareAll(listing), limit, cardCount, BareAll(made), BareAll(final));
    BareSameAgain(p, made, PlanFor(managed, final, limit, cardCount));
  }

  lemma ThroughReplans(now: Enis, start: Enis, log: seq<Event>, managed: bool, instance: string, limit: int,
                       cardCount: int, listing: seq<Eni>, p: Plan, eris: seq<Eri>, final: seq<Eni>)
    requires Through(now, start, log, instance, listing, p, eris)
    requires PlanFor(managed, listing, limit, cardCount) == Ok(p)
    requires Exactly(After(start, log), final, AttachedTo(After(start, log), instance))
    requires OldOrder(listing, final, TailIds(p, eris))
    ensures PlansAgain(eris, PlanFor(managed, final, limit, cardCount)) <==>
      || !Unowned(managed, Conversion(managed, listing, limit, cardCount))
      || Leftover(managed, listing, limit, cardCount) > 0
  {
    SameAgainThrough(now, start, log, managed, instance, limit, cardCount, listing, p, eris, final);
    AgainIsSame(now, start, log, instance, listing, p, eris, PlanFor(managed, final, limit, cardCount));
  }

  lemma AgainIsSame(now: Enis, start: Enis, log: seq<Event>, instance: string, listing: seq<Eni>, p: Plan,
                    eris: seq<Eri>, again: Result<Plan, PlanError>)
    requires Through(now, start, log, instance, listing, p, eris)
    ensures forall e <- eris[|p.eris|..] :: e.id in After(start, log)
    ensures PlansAgain(eris, again) <==> SameAgain(p, MadeNow(After(start, log), eris[|p.eris|..]), again)
  {
    TailStands(now, start, log, instance, listing, p, eris);
    var made := MadeNow(After(start, log), eris[|p.eris|..]);
    forall id, card
      ensures Sits(eris, id, card) <==> Sits(p.eris, id, card) || Standing(made, id, card)
    {
      EntriesSit(now, start, log, instance, listing, p, eris, id, card);
    }
  }

  /** The entries name the plan's interfaces on their cards, and the made ones on theirs. */
  lemma EntriesSit(now: Enis, start: Enis, log: seq<Event>, instance: string, listing: seq<Eni>, p: Plan,
                   eris: seq<Eri>, id: EniId, card: int)
    requires Through(now, start, log, instance, listing, p, eris)
    ensures forall e <- eris[|p.eris|..] :: e.id in After(start, log)
    ensures Sits(eris, id, card) <==>
      Sits(p.eris, id, card) || Standing(MadeNow(After(start, log), eris[|p.eris|..]), id, card)
  {
    var after, tail := After(start, log), eris[|p.eris|..];
    TailStands(now, start, log, instance, listing, p, eris);
    var made := MadeNow(after, tail);
    forall k | 0 <= k < |tail|
      ensures made[k].id == tail[k].id && CardIndex(made[k]) == tail[k].card
    {
      TailEnds(now, start, log, instance, listing, p, eris, k);
      assert MadeEntry(start, instance, p, tail[k], k);
    }
    MadeSits(made, tail, id, card);
    SitsInParts(p.eris, tail, id, card);
    assert eris == p.eris + tail;
  }

  lemma SitsInParts(a: seq<Eri>, b: seq<Eri>, id: EniId, card: int)
    ensures Sits(a + b, id, card) <==> Sits(a, id, card) || Sits(b, id, card)
  {
    if Sits(b, id, card) {
      var k :| 0 <= k < |b| && b[k].id == id && b[k].card == card;
      assert (a + b)[|a| + k] == b[k];
    }
    if Sits(a, id, card) {
      var k :| 0 <= k < |a| && a[k].id == id && a[k].card == card;
      assert (a + b)[k] == a[k];
    }
  }

  lemma MadeSits(made: seq<Eni>, tail: seq<Eri>, id: EniId, card: int)
    requires |made| == |tail|
    requires forall k :: 0 <= k < |tail| ==> made[k].id == tail[k].id && CardIndex(made[k]) == tail[k].card
    ensures Standing(made, id, card) <==> Sits(tail, id, card)
  {
    if Standing(made, id, card) {
      var e :| e in made && e.id == id && CardIndex(e) == card;
      var k :| 0 <= k < |made| && made[k] == e;
      assert tail[k].id == id && tail[k].card == card;
    }
    if Sits(tail, id, card) {
      var k :| 0 <= k < |tail| && tail[k].id == id && tail[k].card == card;
      assert made[k] in made;
    }
  }

  // ---------- From the attempts on ----------

  lemma StepIsStored(start: Enis, now: Enis, next: Enis, managed: bool, instance: string, limit: int, cardCount: int,
                     first: seq<Eni>, listing: seq<Eni>, eris: seq<Eri>)
    requires Begins(start, managed, instance, limit, cardCount, first) && InstanceListing(first)
    requires AttachedInUse(start, instance)
    requires Kept(start, now, instance, PlanFor(managed, first, limit, cardCount).value)
    requires SelectEffect(now, next, managed, instance, limit, cardCount, listing, Ok(eris))
    ensures InstanceListing(listing)
    ensures Stored(now, next, instance, listing, PlanFor(managed, listing, limit, cardCount).value, eris)
  {
    var p, q := PlanFor(managed, first, limit, cardCount).value, PlanFor(managed, listing, limit, cardCount).value;
    StepListed(start, now, managed, instance, limit, cardCount, first, listing);
    StepIsWellChosen(start, now, next, managed, instance, limit, cardCount, first, listing, eris);
    StepStands(start, now, next, instance, p, q, eris);
  }

  /** After a complete attempt: what is attached stays in use, and the tail of the list is what was made. */
  lemma StepStands(start: Enis, now: Enis, next: Enis, instance: string, p: Plan, q: Plan, eris: seq<Eri>)
    requires Fresh(start, instance) && AttachedInUse(start, instance)
    requires Kept(start, now, instance, p) && |p.create| <= PAGE_SIZE
    requires q.create == p.create && q.share == p.share && Attempt(now, next, instance, q, Ok(eris))
    ensures AttachedTo(next, instance) == AttachedTo(now, instance)
    ensures forall id <- AttachedTo(next, instance) :: next[id].status != Some(Available)
    ensures |eris| >= |q.eris| && MadeEntries(next, instance, q, eris[|q.eris|..])
  {
    AttemptKeeps(start, now, next, instance, p, q, Ok(eris));
    AttachedStand(start, now, next, instance, p, q, eris);
    NothingMadeYet(start, next, instance, p);
    TailIsMade(next, instance, p, q, eris);
  }

  lemma AttachedStand(start: Enis, now: Enis, next: Enis, instance: string, p: Plan, q: Plan, eris: seq<Eri>)
    requires AttachedInUse(start, instance) && Kept(start, next, instance, p)
    requires Attempt(now, next, instance, q, Ok(eris))
    ensures AttachedTo(next, instance) == AttachedTo(now, instance)
    ensures forall id <- AttachedTo(next, instance) :: next[id].status != Some(Available)
  {
    AttachedUntouched(now, next, instance, q, Ok(eris));
    StillInUse(start, next, instance, p);
  }

  /** A complete attempt's list, stored and reconciled until everything is ready, is such a record. */
  lemma StepGoesThrough(start: Enis, now: Enis, next: Enis, managed: bool, instance: string, limit: int, cardCount: int,
                        first: seq<Eni>, listing: seq<Eni>, eris: seq<Eri>, log: seq<Event>)
    requires Begins(start, managed, instance, limit, cardCount, first) && InstanceListing(first)
    requires AttachedInUse(start, instance)
    requires Kept(start, now, instance, PlanFor(managed, first, limit, cardCount).value)
    requires SelectEffect(now, next, managed, instance, limit, cardCount, listing, Ok(eris))
    requires OnlyReconciled(next, log, SpecOf(eris), instance) && AllAreReady(After(next, log), eris)
    ensures Through(now, next, log, instance, listing, PlanFor(managed, listing, limit, cardCount).value, eris)
  {
    StepIsStored(start, now, next, managed, instance, limit, cardCount, first, listing, eris);
    AllFromListing(managed, listing, limit, cardCount);
  }

  lemma AllFromListing(managed: bool, listing: seq<Eni>, limit: int, cardCount: int)
    requires PlanFor(managed, listing, limit, cardCount).Ok?
    ensures
      var q := PlanFor(managed, listing, limit, cardCount).value;
      forall k :: 0 <= k < |q.eris| ==> FromListing(listing, q.eris[k], q.share)
  {
    var q := PlanFor(managed, listing, limit, cardCount).value;
    forall k | 0 <= k < |q.eris|
      ensures FromListing(listing, q.eris[k], q.share)
    {
      PlannedAreOwned(managed, listing, limit, cardCount, k);
    }
  }

  lemma TailIsMade(next: Enis, instance: string, p: Plan, q: Plan, eris: seq<Eri>)
    requires q.create == p.create && q.share == p.share && |eris| == |q.eris| + |q.create|
    requires OnePerCard(eris[|q.eris|..], q.create)
    requires forall e <- eris[|q.eris|..] :: e.id in Tagged(next, instance) && Describes(e, next, instance)
    requires forall id <- Tagged(next, instance) :: next[id].id == id && MadeHere(next[id], p.share, instance)
    requires Tagged(next, instance) !! AttachedTo(next, instance)
    ensures MadeEntries(next, instance, q, eris[|q.eris|..])
  {
    var tail := eris[|q.eris|..];
    forall k | 0 <= k < |tail|
      ensures MadeEntry(next, instance, q, tail[k], k)
    {
      assert tail[k] in tail;
    }
  }

  lemma RunGoesThrough(run: Run, managed: bool, instance: string, limit: int, cardCount: int, listing: seq<Eni>, i: nat,
                       log: seq<Event>)
    requires IsAttemptRun(run, managed, instance, limit, cardCount) && i < |run.results| && run.results[i].Ok?
    requires Begins(run.states[0], managed, instance, limit, cardCount, listing) && InstanceListing(listing)
    requires AttachedInUse(run.states[0], instance)
    requires OnlyReconciled(run.states[i + 1], log, SpecOf(run.results[i].value), instance)
    requires AllAreReady(After(run.states[i + 1], log), run.results[i].value)
    ensures PlanFor(managed, run.listings[i], limit, cardCount).Ok?
    ensures Through(run.begun[i], run.states[i + 1], log, instance, run.listings[i],
                    PlanFor(managed, run.listings[i], limit, cardCount).value, run.results[i].value)
  {
    BegunKeeps(run, managed, instance, limit, cardCount, listing, i);
    assert IsAttempt(run, managed, instance, limit, cardCount, i);
    StepGoesThrough(run.states[0], run.begun[i], run.states[i + 1], managed, instance, limit, cardCount, listing,
                    run.listings[i], run.results[i].value, log);
  }

  /** The queue-pair budget, for real: attempts that fail in any way, one that completes, a record reconciled until
      every device is ready. If the listing that was planned from fits the limit, so does what is listed then. */
  lemma ReadyKeepsBudget(run: Run, managed: bool, instance: string, limit: int, cardCount: int, listing: seq<Eni>,
                         i: nat, log: seq<Event>, final: seq<Eni>)
    requires IsAttemptRun(run, managed, instance, limit, cardCount) && i < |run.results| && run.results[i].Ok?
    requires Begins(run.states[0], managed, instance, limit, cardCount, listing) && InstanceListing(listing)
    requires AttachedInUse(run.states[0], instance)
    requires OnlyReconciled(run.states[i + 1], log, SpecOf(run.results[i].value), instance)
    requires AllAreReady(After(run.states[i + 1], log), run.results[i].value)
    requires Exactly(After(run.states[i + 1], log), final, AttachedTo(After(run.states[i + 1], log), instance))
    ensures QueuePairTotal(run.listings[i]) <= limit ==> QueuePairTotal(final) <= limit
  {
    RunGoesThrough(run, managed, instance, limit, cardCount, listing, i, log);
    if QueuePairTotal(run.listings[i]) <= limit {
      ThroughKeepsBudget(run.begun[i], run.states[i + 1], log, managed, instance, limit, cardCount, run.listings[i],
                         PlanFor(managed, run.listings[i], limit, cardCount).value, run.results[i].value, final);
    }
  }

  /** Planning again, for real: with the old interfaces still listed in their old order, the next plan is the list
      once more exactly when the primary was not put to use, or is owned, or equal shares left queue pairs over. */
  lemma ReadyReplans(run: Run, managed: bool, instance: string, limit: int, cardCount: int, listing: seq<Eni>, i: nat,
                     log: seq<Event>, final: seq<Eni>)
    requires IsAttemptRun(run, managed, instance, limit, cardCount) && i < |run.results| && run.results[i].Ok?
    requires Begins(run.states[0], managed, instance, limit, cardCount, listing) && InstanceListing(listing)
    requires AttachedInUse(run.states[0], instance)
    requires OnlyReconciled(run.states[i + 1], log, SpecOf(run.results[i].value), instance)
    requires AllAreReady(After(run.states[i + 1], log), run.results[i].value)
    requires Exactly(After(run.states[i + 1], log), final, AttachedTo(After(run.states[i + 1], log), instance))
    requires OldOrder(run.listings[i], final, Tagged(run.states[i + 1], instance))
    ensures PlanFor(managed, run.listings[i], limit, cardCount).Ok?
    ensures PlansAgain(run.results[i].value, PlanFor(managed, final, limit, cardCount)) <==>
      || !Unowned(managed, Conversion(managed, run.listings[i], limit, cardCount))
      || Leftover(managed, run.listings[i], limit, cardCount) > 0
  {
    RunGoesThrough(run, managed, instance, limit, cardCount, listing, i, log);
    TaggedAreTheTail(run, managed, instance, limit, cardCount, listing, i);
    ThroughReplans(run.begun[i], run.states[i + 1], log, managed, instance, limit, cardCount, run.listings[i],
                   PlanFor(managed, run.listings[i], limit, cardCount).value, run.results[i].value, final);
  }

  lemma TaggedAreTheTail(run: Run, managed: bool, instance: string, limit: int, cardCount: int, listing: seq<Eni>,
                         i: nat)
    requires IsAttemptRun(run, managed, instance, limit, cardCount) && i < |run.results| && run.results[i].Ok?
    requires Begins(run.states[0], managed, instance, limit, cardCount, listing)
    ensures
      var p := PlanFor(managed, run.listings[i], limit, cardCount);
      && p.Ok? && |p.value.eris| <= |run.results[i].value|
      && Tagged(run.states[i + 1], instance) == TailIds(p.value, run.results[i].value)
  {
    assert IsAttempt(run, managed, instance, limit, cardCount, i);
    BegunKeeps(run, managed, instance, limit, cardCount, listing, i);
    StepTail(run.states[0], run.begun[i], run.states[i + 1], managed, instance, limit, cardCount, listing,
             run.listings[i], run.results[i]);
  }

  lemma StepTail(start: Enis, now: Enis, next: Enis, managed: bool, instance: string, limit: int, cardCount: int,
                 first: seq<Eni>, listing: seq<Eni>, r: Result<seq<Eri>, SelectError>)
    requires Begins(start, managed, instance, limit, cardCount, first)
    requires Kept(start, now, instance, PlanFor(managed, first, limit, cardCount).value)
    requires SelectEffect(now, next, managed, instance, limit, cardCount, listing, r) && r.Ok?
    ensures Tagged(next, instance) == TailIds(PlanFor(managed, listing, limit, cardCount).value, r.value)
  {
    CompletesPlan(start, now, next, managed, instance, limit, cardCount, first, listing, r);
    SamePlan(start, now, managed, instance, limit, cardCount, first, listing);
    CompletedTail(now, next, instance, PlanFor(managed, first, limit, cardCount).value,
                  PlanFor(managed, listing, limit, cardCount).value, r.value);
  }

  lemma CompletedTail(before: Enis, now: Enis, instance: string, p: Plan, q: Plan, eris: seq<Eri>)
    requires Completed(before, now, instance, p, eris) && q.create == p.create && |eris| == |q.eris| + |q.create|
    ensures Tagged(now, instance) == TailIds(q, eris)
  {
    assert eris[|q.eris|..] == eris[|eris| - |p.create|..];
    NamedSet(eris[|q.eris|..], Tagged(now, instance));
  }

  lemma NamedSet(tail: seq<Eri>, ids: set<EniId>)
    requires forall id :: id in ids <==> Names(tail, id)
    ensures ids == set e <- tail :: e.id
  {
    forall id
      ensures Names(tail, id) <==> id in (set e <- tail :: e.id)
    {
      if Names(tail, id) {
        var k :| 0 <= k < |tail| && tail[k].id == id;
        assert tail[k] in tail;
      }
      if t :| t in tail && t.id == id {
        var k :| 0 <= k < |tail| && tail[k] == t;
        assert Names(tail, id);
      }
    }
  }
}
