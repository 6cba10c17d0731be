/** One SelectERIs attempt end to end: describe what is attached, plan, reuse or create, tag. */
module SelectEris {
  import opened Prelude
  import opened EniTypes
  import opened CloudApi
  import opened Cloud
  import opened Planner
  import opened Creation

  predicate SameButTags(e: Eni, f: Eni) {
    f == e.(tags := f.tags) && (HasCreatorTag(f) <==> HasCreatorTag(e))
  }

  /** Interfaces attached to the instance that the controller made were made for this instance. */
  ghost predicate TagsOwn(enis: Enis, instance: string) {
    forall id <- AttachedTo(enis, instance) :: HasCreatorTag(enis[id]) ==> HasTags(enis[id], instance)
  }

  /** What the cloud promises of the interfaces attached to one instance. */
  ghost predicate InstanceSound(enis: Enis, instance: string) {
    && (forall id <- AttachedTo(enis, instance) :: IsRdma(enis[id]) ==> enis[id].queuePairs.Some?)
    && (forall a <- AttachedTo(enis, instance), b <- AttachedTo(enis, instance) ::
          enis[a].isPrimary && enis[b].isPrimary ==> a == b)
  }

  /** A successful attempt returns the plan's interfaces followed by one interface per missing card: first what the
      reuse query lists, then what was created. */
  ghost predicate Delivered(before: Enis, after: Enis, instance: string, p: Plan, eris: seq<Eri>) {
    && |eris| == |p.eris| + |p.create| && eris[..|p.eris|] == p.eris
    && OnePerCard(eris[|p.eris|..], p.create)
    && (forall e <- eris[|p.eris|..] :: e.id in Tagged(after, instance) && Describes(e, after, instance))
    && (exists page :: ReusedThenMade(before, page, instance, p.create, p.share, eris[|p.eris|..]))
    && (TagsOwn(before, instance) && |Tagged(before, instance)| <= Least(|p.create|, PAGE_SIZE) ==>
          forall id <- Tagged(after, instance) :: Names(eris[|p.eris|..], id))
  }

  /** The interfaces with this controller's tags for the instance are those that had them and those just made, and
      making stops at the number of missing cards. */
  ghost predicate TaggedGrow(before: Enis, after: Enis, instance: string, p: Plan) {
    && Tagged(after, instance) - Tagged(before, instance) == after.Keys - before.Keys
    && (|Tagged(before, instance)| <= PAGE_SIZE ==>
          |Tagged(after, instance)| <= Most(|Tagged(before, instance)|, |p.create|))
  }

  /** The effect of an attempt with plan `p`, complete or not. */
  ghost predicate Attempt(before: Enis, after: Enis, instance: string, p: Plan, r: Result<seq<Eri>, SelectError>) {
    && before.Keys <= after.Keys && (forall id <- before :: SameButTags(before[id], after[id]))
    && (forall id <- after :: id !in before ==> after[id].id == id && MadeHere(after[id], p.share, instance))
    && Tagged(before, instance) <= Tagged(after, instance)
    && (TagsOwn(before, instance) ==> TaggedGrow(before, after, instance, p))
    && (r.Ok? ==> Delivered(before, after, instance, p, r.value))
  }

  function ControllerTags(instance: string): map<string, string> {
    map[EXCLUDED_KEY := EXCLUDED_VALUE] + if instance != "" then map[INSTANCE_KEY := instance] else map[]
  }

  /** The tags by which other managers of network interfaces know this one is taken. */
  predicate Labelled(e: Eni, instance: string) {
    && "terway.alibabacloud.com/excluded" in e.tags && e.tags["terway.alibabacloud.com/excluded"] == "true"
    && (instance != "" ==> "instance-id" in e.tags && e.tags["instance-id"] == instance)
  }

  method EnsureEriTags(cloud: Cloud, ids: seq<EniId>, instance: string) returns (ok: bool)
    requires cloud.Valid()
    modifies cloud
    ensures cloud.Valid() && old(cloud.log) <= cloud.log && Evolves(old(cloud.enis), cloud.enis)
    ensures NoAttach(cloud.log, |old(cloud.log)|) && forall id, n :: ModesOnly(cloud.log, |old(cloud.log)|, id, n)
    ensures cloud.enis == old(cloud.enis) ||
      cloud.enis == Apply(old(cloud.enis), TagsSet((set id | id in ids), ControllerTags(instance)))
    ensures ok && ids != [] ==>
      cloud.enis == Apply(old(cloud.enis), TagsSet((set id | id in ids), ControllerTags(instance)))
    ensures ids == [] ==> ok && cloud.log == old(cloud.log)
    ensures ok ==> forall id <- ids :: id in cloud.enis ==> Labelled(cloud.enis[id], instance)
    ensures cloud.refused == old(cloud.refused) + if ok then [] else [TagCall]
  {
    assert Evolves(cloud.enis, cloud.enis);
    if |ids| == 0 {
      return true;
    }
    ok := cloud.TagResources(ids, ControllerTags(instance));
  }

  lemma TaggingKeeps(before: Enis, ids: set<EniId>, instance: string)
    ensures
      var after := Apply(before, TagsSet(ids, ControllerTags(instance)));
      && after.Keys == before.Keys && Tagged(before, instance) <= Tagged(after, instance)
      && (forall id <- before :: SameButTags(before[id], after[id]))
    ensures
      (forall id <- ids :: id in before ==> !HasCreatorTag(before[id]) || HasTags(before[id], instance)) ==>
      Tagged(Apply(before, TagsSet(ids, ControllerTags(instance))), instance) == Tagged(before, instance)
  {
    var tags := ControllerTags(instance);
    assert CREATOR_KEY !in tags;
    var after := Apply(before, TagsSet(ids, tags));
    forall id | id in before
      ensures HasTags(before[id], instance) ==> HasTags(after[id], instance)
      ensures id !in ids ==> after[id] == before[id]
    {}
  }

  lemma PageIsListable(enis: Enis, page: seq<Eni>, managed: bool, instance: string, limit: int, cardCount: int)
    requires InstanceSound(enis, instance) && IsPage(enis, page, AttachedTo(enis, instance))
    ensures Listable(managed, page, limit, cardCount)
  {
    OnePrimary(page);
  }

  lemma {:induction false} OnePrimary(page: seq<Eni>)
    requires forall i, j :: 0 <= i < j < |page| ==> page[i].id != page[j].id
    requires forall e, f :: e in page && f in page && e.isPrimary && f.isPrimary ==> e.id == f.id
    ensures |Primaries(page)| <= 1
  {
    if page != [] {
      var tail := page[1..];
      assert forall e :: e in tail ==> e in page;
      OnePrimary(tail);
      if page[0].isPrimary {
        forall e | e in tail
          ensures !e.isPrimary
        {
          var k :| 0 <= k < |tail| && tail[k] == e;
          assert page[k + 1] == e && page[0].id != e.id;
        }
        NoPrimaries(tail);
      }
    }
  }

  lemma {:induction false} NoPrimaries(enis: seq<Eni>)
    requires forall e <- enis :: !e.isPrimary
    ensures Primaries(enis) == []
  {
    if enis != [] {
      NoPrimaries(enis[1..]);
    }
  }

  function EriIds(eris: seq<Eri>): seq<EniId> {
    seq(|eris|, k requires 0 <= k < |eris| => eris[k].id)
  }

  /** Tagging afterwards leaves what a create attempt says of the interfaces true. */
  lemma TaggedAfterwards(before: Enis, mid: Enis, after: Enis, instance: string, p: Plan,
                         made: Result<seq<Eri>, SelectError>)
    requires CreateAttempt(before, mid, instance, p.create, p.share, made)
    requires after.Keys == mid.Keys && Tagged(mid, instance) <= Tagged(after, instance)
    requires TagsOwn(before, instance) ==> Tagged(after, instance) == Tagged(mid, instance)
    requires forall id <- mid :: SameButTags(mid[id], after[id])
    ensures before.Keys <= after.Keys && (forall id <- before :: SameButTags(before[id], after[id]))
    ensures forall id <- after :: id !in before ==> after[id].id == id && MadeHere(after[id], p.share, instance)
    ensures Tagged(before, instance) <= Tagged(after, instance)
    ensures TagsOwn(before, instance) ==> TaggedGrow(before, after, instance, p)
  {
    forall id | id in after && id !in before
      ensures after[id].id == id && MadeHere(after[id], p.share, instance)
    {
      assert id in mid && MadeHere(mid[id], p.share, instance) && id in Tagged(mid, instance);
      assert id in Tagged(after, instance);
    }
    forall id | id in before
      ensures id in Tagged(before, instance) <==> id in Tagged(mid, instance)
    {
      assert mid[id] == before[id];
    }
    assert Tagged(mid, instance) - Tagged(before, instance) == mid.Keys - before.Keys;
  }

  lemma StillDelivered(before: Enis, mid: Enis, after: Enis, instance: string, p: Plan, made: seq<Eri>)
    requires CreateAttempt(before, mid, instance, p.create, p.share, Ok(made))
    requires after.Keys == mid.Keys && Tagged(mid, instance) <= Tagged(after, instance)
    requires TagsOwn(before, instance) ==> Tagged(after, instance) == Tagged(mid, instance)
    requires forall id <- mid :: SameButTags(mid[id], after[id])
    ensures Delivered(before, after, instance, p, p.eris + made)
  {
    assert (p.eris + made)[|p.eris|..] == made;
    forall e | e in made
      ensures e.id in Tagged(after, instance) && Describes(e, after, instance)
    {
      assert Describes(e, mid, instance) && SameButTags(mid[e.id], after[e.id]);
    }
  }

  /** What creating and then tagging amount to. */
  lemma CreatedThenTagged(before: Enis, mid: Enis, after: Enis, instance: string, p: Plan, made: seq<Eri>)
    requires CreateAttempt(before, mid, instance, p.create, p.share, Ok(made))
    requires after.Keys == mid.Keys && Tagged(mid, instance) <= Tagged(after, instance)
    requires TagsOwn(before, instance) ==> Tagged(after, instance) == Tagged(mid, instance)
    requires forall id <- mid :: SameButTags(mid[id], after[id])
    ensures Attempt(before, after, instance, p, Ok(p.eris + made))
  {
    TaggedAfterwards(before, mid, after, instance, p, Ok(made));
    StillDelivered(before, mid, after, instance, p, made);
  }

  /** Either nothing happened, or an attempt was made with the plan for some listing of the attached interfaces. */
  ghost predicate SelectEffect(before: Enis, after: Enis, managed: bool, instance: string, limit: int, cardCount: int,
                               listing: seq<Eni>, r: Result<seq<Eri>, SelectError>) {
    || (r.Err? && after == before)
    || (&& IsPage(before, listing, AttachedTo(before, instance))
        && PlanFor(managed, listing, limit, cardCount).Ok?
        && Attempt(before, after, instance, PlanFor(managed, listing, limit, cardCount).value, r))
  }

  /** Planned interfaces are attached ones. */
  lemma PlannedAreListed(managed: bool, listing: seq<Eni>, limit: int, cardCount: int)
    requires PlanFor(managed, listing, limit, cardCount).Ok?
    ensures forall e <- PlanFor(managed, listing, limit, cardCount).value.eris ::
      exists x :: x in listing && x.id == e.id
  {
    var p := PlanFor(managed, listing, limit, cardCount).value;
    var used := FirstPerCard(managed, listing, {}) + Conversion(managed, listing, limit, cardCount);
    FirstPerCardPicks(managed, listing, {});
    PrimariesAre(listing);
    forall e | e in p.eris
      ensures exists x :: x in listing && x.id == e.id
    {
      var k :| 0 <= k < |p.eris| && p.eris[k] == e;
      assert used[k] in used && used[k].id == e.id;
    }
  }

  /** Why an attempt ends as it does: an error means that a call it cannot do without was refused, or that planning
      from the listing fails; otherwise everything selected is labelled, unless the labelling call was refused. */
  ghost predicate Explained(enis: Enis, managed: bool, instance: string, limit: int, cardCount: int,
                            listing: seq<Eni>, r: Result<seq<Eri>, SelectError>, before: seq<Call>, after: seq<Call>) {
    match r
    case Err(CallFailed) => FailedCall(before, after)
    case Err(PlanFailed(e)) =>
      && after == before && IsPage(enis, listing, AttachedTo(enis, instance))
      && PlanFor(managed, listing, limit, cardCount) == Err(e)
    case Ok(eris) => LabelledUnlessRefused(enis, instance, eris, before, after)
  }

  method SelectAndCreate(cloud: Cloud, managed: bool, instance: string, queuePairCount: int, cardCount: int)
    returns (r: Result<seq<Eri>, SelectError>, ghost listing: seq<Eni>)
    requires cloud.Valid() && InstanceSound(cloud.enis, instance)
    modifies cloud
    ensures cloud.Valid() && old(cloud.log) <= cloud.log
    ensures SelectEffect(old(cloud.enis), cloud.enis, managed, instance, queuePairCount, cardCount, listing, r)
    ensures Explained(cloud.enis, managed, instance, queuePairCount, cardCount, listing, r,
                      old(cloud.refused), cloud.refused)
  {
    var plan;
    plan, listing := DescribeAndPlan(cloud, managed, instance, queuePairCount, cardCount);
    if plan.Err? {
      return Err(plan.error), listing;
    }
    r := CarryOut(cloud, instance, plan.value, listing);
  }

  /** The listing, and the plan for it. */
  method DescribeAndPlan(cloud: Cloud, managed: bool, instance: string, queuePairCount: int, cardCount: int)
    returns (r: Result<Plan, SelectError>, ghost listing: seq<Eni>)
    requires cloud.Valid() && InstanceSound(cloud.enis, instance)
    modifies cloud`refused
    ensures cloud.Valid()
    ensures r == Err(CallFailed) ==> cloud.refused == old(cloud.refused) + [DescribeCall]
    ensures r != Err(CallFailed) ==>
      cloud.refused == old(cloud.refused) && IsPage(cloud.enis, listing, AttachedTo(cloud.enis, instance))
    ensures r.Err? && r.error.PlanFailed? ==>
      PlanFor(managed, listing, queuePairCount, cardCount) == Err(r.error.error)
    ensures r.Ok? ==> PlanFor(managed, listing, queuePairCount, cardCount) == Ok(r.value)
    ensures r.Ok? ==> forall e <- r.value.eris :: exists x :: x in listing && x.id == e.id
  {
    listing := [];
    var existENIs := cloud.DescribeInstance(instance);
    if existENIs.None? {
      return Err(CallFailed), [];
    }
    listing := existENIs.value;
    PageIsListable(cloud.enis, existENIs.value, managed, instance, queuePairCount, cardCount);
    var selected := SelectEriFromExist(managed, existENIs.value, queuePairCount, cardCount);
    if selected.Err? {
      return Err(PlanFailed(selected.error)), listing;
    }
    PlannedAreListed(managed, listing, queuePairCount, cardCount);
    return Ok(selected.value), listing;
  }

  /** The part of SelectERIs after planning. */
  method CarryOut(cloud: Cloud, instance: string, plan: Plan, ghost listing: seq<Eni>)
    returns (r: Result<seq<Eri>, SelectError>)
    requires cloud.Valid() && IsPage(cloud.enis, listing, AttachedTo(cloud.enis, instance))
    requires forall e <- plan.eris :: exists x :: x in listing && x.id == e.id
    modifies cloud
    ensures cloud.Valid() && old(cloud.log) <= cloud.log
    ensures Attempt(old(cloud.enis), cloud.enis, instance, plan, r)
    ensures r.Err? ==> r.error == CallFailed && FailedCall(old(cloud.refused), cloud.refused)
    ensures r.Ok? ==> LabelledUnlessRefused(cloud.enis, instance, r.value, old(cloud.refused), cloud.refused)
  {
    ghost var before := cloud.enis;
    var eris := CreateEriForInstance(cloud, instance, plan.create, plan.share);
    if eris.Err? {
      UntaggedAttempt(before, cloud.enis, instance, plan, eris);
      return Err(eris.error);
    }
    var all := TagSelected(cloud, instance, plan, eris.value, before, listing);
    return Ok(all);
  }

  /** Every selected interface is labelled, or the one call that failed was the one that labels them. */
  ghost predicate LabelledUnlessRefused(enis: Enis, instance: string, eris: seq<Eri>, before: seq<Call>,
                                        after: seq<Call>) {
    || after == before + [TagCall]
    || (after == before && forall e <- eris :: e.id in enis ==> Labelled(enis[e.id], instance))
  }

  /** The last step of SelectERIs: put the lists together and tag everything, best effort. */
  method TagSelected(cloud: Cloud, instance: string, plan: Plan, made: seq<Eri>, ghost before: Enis,
                     ghost listing: seq<Eni>)
    returns (all: seq<Eri>)
    requires cloud.Valid() && CreateAttempt(before, cloud.enis, instance, plan.create, plan.share, Ok(made))
    requires IsPage(before, listing, AttachedTo(before, instance))
    requires forall e <- plan.eris :: exists x :: x in listing && x.id == e.id
    modifies cloud
    ensures cloud.Valid() && old(cloud.log) <= cloud.log
    ensures all == plan.eris + made && Attempt(before, cloud.enis, instance, plan, Ok(all))
    ensures LabelledUnlessRefused(cloud.enis, instance, all, old(cloud.refused), cloud.refused)
  {
    ghost var mid := cloud.enis;
    all := plan.eris + made;
    if TagsOwn(before, instance) {
      TaggableOnly(before, mid, listing, instance, plan, Ok(made), all);
    }
    LabelAll(cloud, instance, all);
    CreatedThenTagged(before, mid, cloud.enis, instance, plan, made);
  }

  method LabelAll(cloud: Cloud, instance: string, all: seq<Eri>)
    requires cloud.Valid()
    modifies cloud
    ensures cloud.Valid() && old(cloud.log) <= cloud.log
    ensures RelabelledOnly(old(cloud.enis), cloud.enis, EriIds(all), instance)
    ensures LabelledUnlessRefused(cloud.enis, instance, all, old(cloud.refused), cloud.refused)
  {
    ghost var mid := cloud.enis;
    TaggingKeeps(mid, (set id | id in EriIds(all)), instance);
    var _ := EnsureEriTags(cloud, EriIds(all), instance);
    assert forall id <- mid :: SameButTags(mid[id], mid[id]);
    forall e | e in all
      ensures e.id in EriIds(all)
    {
      var k :| 0 <= k < |all| && all[k] == e;
      assert EriIds(all)[k] == e.id;
    }
  }

  /** Only tags changed, and none that the reuse query looks for if the interfaces of other creators are left alone. */
  ghost predicate RelabelledOnly(before: Enis, after: Enis, ids: seq<EniId>, instance: string) {
    && after.Keys == before.Keys && Tagged(before, instance) <= Tagged(after, instance)
    && (forall id <- before :: SameButTags(before[id], after[id]))
    && ((forall id <- ids :: id in before ==> !HasCreatorTag(before[id]) || HasTags(before[id], instance)) ==>
          Tagged(after, instance) == Tagged(before, instance))
  }

  lemma UntaggedAttempt(before: Enis, mid: Enis, instance: string, p: Plan, made: Result<seq<Eri>, SelectError>)
    requires CreateAttempt(before, mid, instance, p.create, p.share, made)
    requires made.Err?
    ensures Attempt(before, mid, instance, p, made)
  {
    assert forall id <- mid :: SameButTags(mid[id], mid[id]);
    TaggedAfterwards(before, mid, mid, instance, p, made);
  }

  lemma TaggableOnly(before: Enis, mid: Enis, listing: seq<Eni>, instance: string, p: Plan,
                     made: Result<seq<Eri>, SelectError>, all: seq<Eri>)
    requires TagsOwn(before, instance) && IsPage(before, listing, AttachedTo(before, instance))
    requires forall e <- p.eris :: exists x :: x in listing && x.id == e.id
    requires CreateAttempt(before, mid, instance, p.create, p.share, made) && made.Ok? && all == p.eris + made.value
    ensures forall id <- EriIds(all) :: id in mid ==> !HasCreatorTag(mid[id]) || HasTags(mid[id], instance)
  {
    forall id | id in EriIds(all)
      ensures id in mid ==> !HasCreatorTag(mid[id]) || HasTags(mid[id], instance)
    {
      var k :| 0 <= k < |all| && all[k].id == id;
      if k < |p.eris| {
        assert p.eris[k] in p.eris;
        var x :| x in listing && x.id == id;
      } else {
        assert made.value[k - |p.eris|] in made.value;
      }
    }
  }

  /** The part of SelectERIs before the listing. */
  method DescribeCapacity(cloud: Cloud, instanceType: string, types: seq<InstanceType>)
    returns (described: bool, supported: bool, cardCount: int, queuePairCount: int)
    requires cloud.Valid()
    modifies cloud`refused
    ensures cloud.Valid() && cloud.refused == old(cloud.refused) + if described then [] else [DescribeCall]
    ensures described ==> (supported <==> !SomeUnsupported(types, instanceType))
    ensures described && supported ==> queuePairCount == CapacityOf(types).0 && cardCount == CapacityOf(types).1
  {
    supported, cardCount, queuePairCount := false, 0, 0;
    described := cloud.DescribeType();
    if described {
      supported, cardCount, queuePairCount := Capacity(instanceType, types);
    }
  }

  /** None stands for the nil list of an instance type without RDMA support. */
  method SelectERIs(cloud: Cloud, managed: bool, instance: string, instanceType: string, types: seq<InstanceType>)
    returns (r: Result<Option<seq<Eri>>, SelectError>, ghost listing: seq<Eni>)
    requires cloud.Valid() && InstanceSound(cloud.enis, instance)
    modifies cloud
    ensures cloud.Valid() && old(cloud.log) <= cloud.log
    ensures r == Ok(None) ==> cloud.enis == old(cloud.enis) && cloud.refused == old(cloud.refused)
    ensures r == Ok(None) ==> SomeUnsupported(types, instanceType)
    ensures SomeUnsupported(types, instanceType) ==>
      (r == Ok(None) || r == Err(CallFailed)) && cloud.enis == old(cloud.enis)
    ensures r != Ok(None) ==>
      SelectEffect(old(cloud.enis), cloud.enis, managed, instance, CapacityOf(types).0, CapacityOf(types).1, listing,
                   if r.Ok? then Ok(r.value.value) else Err(r.error))
    ensures r != Ok(None) ==>
      Explained(cloud.enis, managed, instance, CapacityOf(types).0, CapacityOf(types).1, listing,
                if r.Ok? then Ok(r.value.value) else Err(r.error), old(cloud.refused), cloud.refused)
  {
    listing := [];
    var described, supported, cardCount, queuePairCount := DescribeCapacity(cloud, instanceType, types);
    if !described {
      return Err(CallFailed), [];
    }
    if !supported {
      return Ok(None), [];
    }
    var eris;
    eris, listing := SelectAndCreate(cloud, managed, instance, queuePairCount, cardCount);
    r := if eris.Ok? then Ok(Some(eris.value)) else Err(eris.error);
  }
}
