/** CreateEriForInstance: what an instance type can hold, and reusing or creating one interface per missing card. */
module Creation {
  import opened Prelude
  import opened EniTypes
  import opened CloudApi
  import opened Cloud
  import opened Planner

  datatype SelectError = CallFailed | PlanFailed(error: PlanError)

  // ---------- Capacity of an instance type ----------

  datatype InstanceType = InstanceType(
    id: string, eriQuantity: Option<int>, networkCards: Option<int>, queuePairs: int, gpus: Option<int>)

  /** Go's int32 arithmetic. */
  function Wrap32(x: int): int {
    (x + 0x8000_0000) % 0x1_0000_0000 - 0x8000_0000
  }

  predicate Unsupported(t: InstanceType, instanceType: string) {
    t.eriQuantity == None || (t.id == instanceType && t.eriQuantity == Some(0))
  }

  ghost predicate SomeUnsupported(types: seq<InstanceType>, instanceType: string) {
    exists t :: t in types && Unsupported(t, instanceType)
  }

  function CardCount(t: InstanceType): int {
    if t.networkCards.GetOr(0) < 2 then 1 else Least(t.networkCards.value, t.eriQuantity.GetOr(0))
  }

  function QueuePairLimit(t: InstanceType): int {
    if t.gpus.GetOr(0) > 0 then Wrap32(t.queuePairs * Wrap32(CardCount(t))) else t.queuePairs
  }

  /** The queue-pair limit and the card count that a list of types comes to: the last type decides. */
  function CapacityOf(types: seq<InstanceType>): (int, int) {
    if types == [] then (0, 0) else (QueuePairLimit(types[|types| - 1]), CardCount(types[|types| - 1]))
  }

  /** Wrapping takes away a multiple of 2^32, and leaves a number of 32 bits. */
  lemma WrapMeans(x: int) returns (k: int)
    ensures Wrap32(x) == x - k * 0x1_0000_0000 && -0x8000_0000 <= Wrap32(x) < 0x8000_0000
  {
    k := (x + 0x8000_0000) / 0x1_0000_0000;
  }

  /** The product of the wrapped factor, wrapped, differs from the whole product by a multiple of 2^32. */
  lemma WrappedProduct(a: int, b: int)
    ensures exists k :: Wrap32(a * Wrap32(b)) + k * 0x1_0000_0000 == a * b
    ensures -0x8000_0000 <= Wrap32(a * Wrap32(b)) < 0x8000_0000
  {
    var i := WrapMeans(b);
    var j := WrapMeans(a * Wrap32(b));
    assert a * Wrap32(b) == a * b - (a * i) * 0x1_0000_0000;
    assert Wrap32(a * Wrap32(b)) + (j + a * i) * 0x1_0000_0000 == a * b;
  }

  /** What the last type says: one card without at least two network cards, else no more cards than network cards and
      no more than interfaces of the type, and as many as that allows; the type's queue pairs once, or with a GPU once
      for each card in 32-bit arithmetic. */
  lemma CapacityMeans(t: InstanceType)
    ensures t.networkCards == None || t.networkCards.value < 2 ==> CardCount(t) == 1
    ensures t.networkCards.Some? && t.networkCards.value >= 2 && t.eriQuantity.Some? ==>
      && CardCount(t) <= t.networkCards.value && CardCount(t) <= t.eriQuantity.value
      && (CardCount(t) == t.networkCards.value || CardCount(t) == t.eriQuantity.value)
    ensures t.gpus == None || t.gpus.value <= 0 ==> QueuePairLimit(t) == t.queuePairs
    ensures t.gpus.Some? && t.gpus.value > 0 ==>
      && -0x8000_0000 <= QueuePairLimit(t) < 0x8000_0000
      && exists k :: QueuePairLimit(t) + k * 0x1_0000_0000 == t.queuePairs * CardCount(t)
  {
    WrappedProduct(t.queuePairs, CardCount(t));
  }

  /** No capacity when any listed type is unsupported; otherwise the last listed type decides. */
  method Capacity(instanceType: string, types: seq<InstanceType>)
    returns (supported: bool, cardCount: int, queuePairCount: int)
    ensures supported <==> forall t <- types ::
      t.eriQuantity.Some? && (t.id == instanceType ==> t.eriQuantity.value != 0)
    ensures supported <==> !SomeUnsupported(types, instanceType)
    ensures supported ==> (queuePairCount, cardCount) == CapacityOf(types)
    ensures types == [] ==> cardCount == queuePairCount == 0
    ensures supported && types != [] ==>
      var t := types[|types| - 1];
      && (t.networkCards == None || t.networkCards.value < 2 ==> cardCount == 1)
      && (t.networkCards.Some? && t.networkCards.value >= 2 ==>
            && cardCount <= t.networkCards.value && cardCount <= t.eriQuantity.value
            && (cardCount == t.networkCards.value || cardCount == t.eriQuantity.value))
      && (t.gpus == None || t.gpus.value <= 0 ==> queuePairCount == t.queuePairs)
      && (t.gpus.Some? && t.gpus.value > 0 ==>
            && -0x8000_0000 <= queuePairCount < 0x8000_0000
            && exists k :: queuePairCount + k * 0x1_0000_0000 == t.queuePairs * cardCount)
  {
    cardCount, queuePairCount := 0, 0;
    for i := 0 to |types|
      invariant forall j :: 0 <= j < i ==> !Unsupported(types[j], instanceType)
      invariant i > 0 ==> cardCount == CardCount(types[i - 1]) && queuePairCount == QueuePairLimit(types[i - 1])
      invariant i == 0 ==> cardCount == queuePairCount == 0
    {
      var t := types[i];
      if t.eriQuantity == None {
        assert Unsupported(types[i], instanceType);
        return false, 0, 0;
      }
      var eriQuantity := t.eriQuantity.value;
      if t.id == instanceType && eriQuantity == 0 {
        assert Unsupported(types[i], instanceType);
        return false, 0, 0;
      }
      if t.networkCards == None || t.networkCards.value < 2 {
        cardCount := 1;
      } else {
        cardCount := Least(t.networkCards.value, eriQuantity);
      }
      queuePairCount := t.queuePairs;
      if t.gpus.Some? && t.gpus.value > 0 {
        queuePairCount := Wrap32(t.queuePairs * Wrap32(cardCount));
      }
    }
    if types != [] {
      CapacityMeans(types[|types| - 1]);
    }
    return true, cardCount, queuePairCount;
  }

  /** The plan for a supported type with interfaces to offer creates for cards of the instance below the number of
      interfaces the type has, each card once; so it never plans more new interfaces than the type may have. */
  lemma CreatesWithinType(managed: bool, listing: seq<Eni>, types: seq<InstanceType>)
    requires types != [] && types[|types| - 1].eriQuantity.GetOr(0) >= 1
    requires PlanFor(managed, listing, CapacityOf(types).0, CapacityOf(types).1).Ok?
    ensures
      var create := PlanFor(managed, listing, CapacityOf(types).0, CapacityOf(types).1).value.create;
      && (forall c <- create :: 0 <= c < types[|types| - 1].eriQuantity.value)
      && (forall i, j :: 0 <= i < j < |create| ==> create[i] < create[j])
      && |create| <= types[|types| - 1].eriQuantity.value
  {
    var t := types[|types| - 1];
    var create := PlanFor(managed, listing, QueuePairLimit(t), CardCount(t)).value.create;
    var taken := Cards(FirstPerCard(managed, listing, {}));
    CapacityMeans(t);
    MissingAre(taken, 0, CardCount(t));
    MissingAre(taken, 1, CardCount(t));
    AscendingFits(create, 0, t.eriQuantity.value);
  }

  lemma {:induction false} AscendingFits(xs: seq<int>, from: int, to: int)
    requires from <= to && (forall x <- xs :: from <= x < to)
    requires forall i, j :: 0 <= i < j < |xs| ==> xs[i] < xs[j]
    ensures |xs| <= to - from
    decreases |xs|
  {
    if xs != [] {
      assert xs[0] in xs;
      forall x | x in xs[1..]
        ensures xs[0] + 1 <= x < to
      {
        var i :| 0 <= i < |xs[1..]| && xs[1..][i] == x;
        assert x == xs[i + 1] && x in xs;
      }
      AscendingFits(xs[1..], xs[0] + 1, to);
    }
  }

  // ---------- Reuse or create ----------

  ghost predicate Names(eris: seq<Eri>, id: EniId) {
    exists k :: 0 <= k < |eris| && eris[k].id == id
  }

  /** The entry gives the interface's own kind and MAC, for this instance. */
  predicate Describes(e: Eri, enis: Enis, instance: string) {
    e.id in enis && e.isPrimary == enis[e.id].isPrimary && e.mac == enis[e.id].mac && e.instance == instance
  }

  ghost predicate OnePerCard(eris: seq<Eri>, cards: seq<int>) {
    && |eris| == |cards|
    && (forall k :: 0 <= k < |eris| ==> eris[k].card == cards[k])
    && (forall i, j :: 0 <= i < j < |eris| ==> eris[i].id != eris[j].id)
  }

  ghost predicate OnlyMadeHere(before: Enis, after: Enis, instance: string, share: int) {
    && before.Keys <= after.Keys && (forall id <- before :: after[id] == before[id])
    && (forall id <- after :: id !in before ==> after[id].id == id && MadeHere(after[id], share, instance))
  }

  /** Nothing that existed changed, everything new was made here, and no more was made than cards were left over
      after reuse, even when the call failed. */
  ghost predicate CreateAttempt(before: Enis, after: Enis, instance: string, cards: seq<int>, share: int,
                                r: Result<seq<Eri>, SelectError>) {
    && OnlyMadeHere(before, after, instance, share)
    && (|Tagged(before, instance)| <= PAGE_SIZE ==>
          |Tagged(after, instance)| <= Most(|Tagged(before, instance)|, |cards|))
    && (r.Ok? ==> OnePerCard(r.value, cards))
    && (r.Ok? ==> forall e <- r.value :: e.id in Tagged(after, instance) && Describes(e, after, instance))
    && (r.Ok? && |Tagged(before, instance)| <= Least(|cards|, PAGE_SIZE) ==>
          forall id <- Tagged(after, instance) :: Names(r.value, id))
    && (r.Ok? ==> exists page :: ReusedThenMade(before, page, instance, cards, share, r.value))
  }

  /** The first entries are the reuse query's page, each with the interface's own queue pairs or, if it reports none,
      the share; every later entry is about an interface that was not there before and carries queue pairs 0. */
  ghost predicate ReusedThenMade(before: Enis, page: seq<Eni>, instance: string, cards: seq<int>, share: int,
                                 eris: seq<Eri>) {
    && IsPage(before, page, Tagged(before, instance))
    && Reused(page, instance, share, cards) <= eris
    && forall k :: Least(|page|, |cards|) <= k < |eris| ==> eris[k].id !in before && eris[k].queuePair == 0
  }

  function Most(a: int, b: int): int {
    if a > b then a else b
  }

  lemma TaggedGrows(before: Enis, after: Enis, share: int, instance: string, id: EniId)
    requires CreateEffect(before, after, share, instance, id)
    ensures Tagged(after, instance) == Tagged(before, instance) + {id}
    ensures |Tagged(after, instance)| == |Tagged(before, instance)| + 1
  {}

  /** The entry for a reused interface: its own queue pairs, the planned card. */
  function ReusedEri(e: Eni, instance: string, share: int, card: int): Eri {
    ToEri(e, share).(instance := instance, card := card)
  }

  function Reused(page: seq<Eni>, instance: string, share: int, cards: seq<int>): seq<Eri> {
    seq(Least(|page|, |cards|),
        k requires 0 <= k < Least(|page|, |cards|) => ReusedEri(page[k], instance, share, cards[k]))
  }

  method ReusePage(page: seq<Eni>, instance: string, share: int, cardIndex: seq<int>)
    returns (eris: seq<Eri>, cards: seq<int>)
    ensures eris == Reused(page, instance, share, cardIndex) && cards == cardIndex[|eris|..]
  {
    eris, cards := [], cardIndex;
    for i := 0 to |page|
      invariant eris == Reused(page[..i], instance, share, cardIndex)
      invariant cards == cardIndex[|eris|..]
    {
      if |cards| > 0 {
        eris := eris + [ReusedEri(page[i], instance, share, cards[0])];
        cards := cards[1..];
      }
    }
    assert page[..|page|] == page;
  }

  /** Midway through an attempt: `eris` covers the first cards, the first `reused` of them without a create call. */
  ghost predicate SoFar(before: Enis, now: Enis, instance: string, cards: seq<int>, share: int, eris: seq<Eri>,
                        reused: nat) {
    && OnlyMadeHere(before, now, instance, share)
    && |Tagged(now, instance)| == |Tagged(before, instance)| + |eris| - reused
    && Covering(Tagged(before, instance), Tagged(now, instance), cards, eris, reused)
    && (forall e <- eris :: Describes(e, now, instance))
  }

  ghost predicate Covering(had: set<EniId>, tagged: set<EniId>, cards: seq<int>, eris: seq<Eri>, reused: nat) {
    && reused == Least(Least(|had|, PAGE_SIZE), |cards|)
    && reused <= |eris| <= |cards| && OnePerCard(eris, cards[..|eris|])
    && (forall e <- eris :: e.id in tagged)
    && (|had| <= Least(|cards|, PAGE_SIZE) ==> forall id <- tagged :: Names(eris, id))
  }

  lemma ReuseStarts(enis: Enis, page: seq<Eni>, instance: string, cards: seq<int>, share: int)
    requires IsPage(enis, page, Tagged(enis, instance))
    ensures SoFar(enis, enis, instance, cards, share, Reused(page, instance, share, cards),
                  |Reused(page, instance, share, cards)|)
  {
    var eris, tagged := Reused(page, instance, share, cards), Tagged(enis, instance);
    assert forall k :: 0 <= k < |eris| ==> eris[k].id == page[k].id && page[k] in page;
    if |tagged| <= Least(|cards|, PAGE_SIZE) {
      forall id | id in tagged
        ensures Names(eris, id)
      {
        assert Lists(page, id);
        var k :| 0 <= k < |page| && page[k].id == id;
        assert eris[k].id == id;
      }
    }
  }

  lemma OneMore(eris: seq<Eri>, cards: seq<int>, e: Eri)
    requires |eris| < |cards| && OnePerCard(eris, cards[..|eris|]) && e.card == cards[|eris|]
    requires forall x <- eris :: x.id != e.id
    ensures OnePerCard(eris + [e], cards[..|eris| + 1])
    ensures forall id :: Names(eris + [e], id) <==> Names(eris, id) || id == e.id
  {
    var eris' := eris + [e];
    assert eris'[|eris|].id == e.id;
    forall id | Names(eris, id)
      ensures Names(eris', id)
    {
      var k :| 0 <= k < |eris| && eris[k].id == id;
      assert eris'[k].id == id;
    }
    forall j | 0 <= j < |eris|
      ensures eris'[j].id != e.id
    {
      assert eris[j] in eris;
    }
  }

  lemma CoversMore(had: set<EniId>, tagged: set<EniId>, cards: seq<int>, eris: seq<Eri>, reused: nat, e: Eri)
    requires Covering(had, tagged, cards, eris, reused) && |eris| < |cards|
    requires e.id !in tagged && e.card == cards[|eris|]
    ensures Covering(had, tagged + {e.id}, cards, eris + [e], reused)
  {
    OneMore(eris, cards, e);
  }

  lemma StillOnlyMadeHere(before: Enis, now: Enis, next: Enis, instance: string, share: int, id: EniId)
    requires OnlyMadeHere(before, now, instance, share) && CreateEffect(now, next, share, instance, id)
    ensures OnlyMadeHere(before, next, instance, share)
  {}

  lemma StillDescribed(now: Enis, next: Enis, instance: string, share: int, eris: seq<Eri>, e: Eri)
    requires forall x <- eris :: Describes(x, now, instance)
    requires CreateEffect(now, next, share, instance, e.id) && Describes(e, next, instance)
    ensures forall x <- eris + [e] :: Describes(x, next, instance)
  {}

  lemma CreateContinues(before: Enis, now: Enis, next: Enis, instance: string, cards: seq<int>, share: int,
                        eris: seq<Eri>, reused: nat, e: Eri)
    requires SoFar(before, now, instance, cards, share, eris, reused) && |eris| < |cards|
    requires CreateEffect(now, next, share, instance, e.id) && e.card == cards[|eris|] && Describes(e, next, instance)
    ensures SoFar(before, next, instance, cards, share, eris + [e], reused)
  {
    TaggedGrows(now, next, share, instance, e.id);
    CoversMore(Tagged(before, instance), Tagged(now, instance), cards, eris, reused, e);
    StillDescribed(now, next, instance, share, eris, e);
    StillOnlyMadeHere(before, now, next, instance, share, e.id);
  }

  /** A create call that reported failure, whether or not the cloud made the interface. */
  lemma AttemptLost(before: Enis, now: Enis, next: Enis, instance: string, cards: seq<int>, share: int, eris: seq<Eri>,
                    reused: nat)
    requires SoFar(before, now, instance, cards, share, eris, reused) && |eris| < |cards|
    requires next == now || exists id :: CreateEffect(now, next, share, instance, id)
    ensures CreateAttempt(before, next, instance, cards, share, Err(CallFailed))
  {
    if next == now {
      AttemptEnds(before, now, instance, cards, share, eris, reused);
    } else {
      var id :| CreateEffect(now, next, share, instance, id);
      var lost := Eri(id, false, next[id].mac, instance, cards[|eris|], 0);
      CreateContinues(before, now, next, instance, cards, share, eris, reused, lost);
      AttemptEnds(before, next, instance, cards, share, eris + [lost], reused);
    }
  }

  lemma AttemptEnds(before: Enis, now: Enis, instance: string, cards: seq<int>, share: int, eris: seq<Eri>, reused: nat)
    requires SoFar(before, now, instance, cards, share, eris, reused)
    ensures CreateAttempt(before, now, instance, cards, share, Err(CallFailed))
  {}

  lemma AttemptDone(before: Enis, now: Enis, instance: string, cards: seq<int>, share: int, eris: seq<Eri>, reused: nat,
                    page: seq<Eni>)
    requires SoFar(before, now, instance, cards, share, eris, reused) && |eris| == |cards|
    requires ReusedThenMade(before, page, instance, cards, share, eris)
    ensures CreateAttempt(before, now, instance, cards, share, Ok(eris))
  {
    assert cards[..|eris|] == cards;
  }

  /** One create call for the next card. */
  method CreateNext(cloud: Cloud, instance: string, queuePair: int, card: int, ghost before: Enis,
                    ghost cards: seq<int>, ghost eris: seq<Eri>, ghost reused: nat, ghost page: seq<Eni>)
    returns (eri: Option<Eri>)
    requires cloud.Valid() && SoFar(before, cloud.enis, instance, cards, queuePair, eris, reused)
    requires ReusedThenMade(before, page, instance, cards, queuePair, eris)
    requires |eris| < |cards| && card == cards[|eris|]
    modifies cloud
    ensures cloud.Valid() && old(cloud.log) <= cloud.log
    ensures cloud.refused == old(cloud.refused) + if eri.Some? then [] else [CreateCall]
    ensures eri.Some? ==> SoFar(before, cloud.enis, instance, cards, queuePair, eris + [eri.value], reused)
    ensures eri.Some? ==> ReusedThenMade(before, page, instance, cards, queuePair, eris + [eri.value])
    ensures eri.None? ==> CreateAttempt(before, cloud.enis, instance, cards, queuePair, Err(CallFailed))
  {
    ghost var now := cloud.enis;
    var created := cloud.CreateNetworkInterface(instance, queuePair);
    if created.None? {
      AttemptLost(before, now, cloud.enis, instance, cards, queuePair, eris, reused);
      return None;
    }
    eri := Some(Eri(created.value.0, false, created.value.1, instance, card, 0));
    CreateContinues(before, now, cloud.enis, instance, cards, queuePair, eris, reused, eri.value);
    MoreMade(before, page, instance, cards, queuePair, eris, eri.value);
  }

  lemma MoreMade(before: Enis, page: seq<Eni>, instance: string, cards: seq<int>, share: int, eris: seq<Eri>, e: Eri)
    requires ReusedThenMade(before, page, instance, cards, share, eris) && e.id !in before && e.queuePair == 0
    ensures ReusedThenMade(before, page, instance, cards, share, eris + [e])
  {}

  /** The create loop: one new interface for every card that reuse left over. */
  method CreateRest(cloud: Cloud, instance: string, cardIndex: seq<int>, queuePair: int, reusedEris: seq<Eri>,
                    ghost before: Enis, ghost page: seq<Eni>)
    returns (r: Result<seq<Eri>, SelectError>)
    requires cloud.Valid() && SoFar(before, cloud.enis, instance, cardIndex, queuePair, reusedEris, |reusedEris|)
    requires ReusedThenMade(before, page, instance, cardIndex, queuePair, reusedEris)
    modifies cloud
    ensures cloud.Valid() && old(cloud.log) <= cloud.log
    ensures CreateAttempt(before, cloud.enis, instance, cardIndex, queuePair, r)
    ensures r.Err? ==> r.error == CallFailed
    ensures cloud.refused == old(cloud.refused) + if r.Ok? then [] else [CreateCall]
  {
    var eris, cards := reusedEris, cardIndex[|reusedEris|..];
    while |cards| > 0
      invariant cloud.Valid() && old(cloud.log) <= cloud.log
      invariant SoFar(before, cloud.enis, instance, cardIndex, queuePair, eris, |reusedEris|)
      invariant ReusedThenMade(before, page, instance, cardIndex, queuePair, eris)
      invariant cards == cardIndex[|eris|..] && cloud.refused == old(cloud.refused)
      decreases |cards|
    {
      var created := CreateNext(cloud, instance, queuePair, cards[0], before, cardIndex, eris, |reusedEris|, page);
      if created.None? {
        return Err(CallFailed);
      }
      assert cardIndex[|eris|..][1..] == cardIndex[|eris| + 1..];
      eris := eris + [created.value];
      cards := cards[1..];
    }
    AttemptDone(before, cloud.enis, instance, cardIndex, queuePair, eris, |reusedEris|, page);
    return Ok(eris);
  }

  /** Exactly one more call was refused: one that selecting interfaces cannot do without. */
  predicate FailedCall(before: seq<Call>, after: seq<Call>) {
    after == before + [DescribeCall] || after == before + [CreateCall]
  }

  method CreateEriForInstance(cloud: Cloud, instance: string, cardIndex: seq<int>, queuePair: int)
    returns (r: Result<seq<Eri>, SelectError>)
    requires cloud.Valid()
    modifies cloud
    ensures cloud.Valid() && old(cloud.log) <= cloud.log
    ensures CreateAttempt(old(cloud.enis), cloud.enis, instance, cardIndex, queuePair, r)
    ensures r.Err? ==> r.error == CallFailed && FailedCall(old(cloud.refused), cloud.refused)
    ensures r.Ok? ==> cloud.refused == old(cloud.refused)
  {
    var page := cloud.DescribeTagged(instance);
    if page.None? {
      return Err(CallFailed);
    }
    var eris, _ := ReusePage(page.value, instance, queuePair, cardIndex);
    ReuseStarts(cloud.enis, page.value, instance, cardIndex, queuePair);
    r := CreateRest(cloud, instance, cardIndex, queuePair, eris, cloud.enis, page.value);
  }
}
