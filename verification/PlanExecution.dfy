/** Carrying a plan out: the primary is converted, the created interfaces join their cards, and the queue-pair budget
    holds afterwards. The last lemmas prepare planning again. */
module PlanExecution {
  import opened Prelude
  import opened EniTypes
  import opened Planner
  import opened PlannerProperties

  predicate Plans(p: Plan, id: EniId) {
    exists k :: 0 <= k < |p.eris| && p.eris[k].id == id
  }

  /** A planned interface that is not yet RDMA is switched over with the queue pairs its plan entry carries. */
  function ConvertOne(p: Plan, e: Eni): Eni {
    if !IsRdma(e) && Plans(p, e.id) then
      e.(mode := HighPerformance, queuePairs := Some(ToEri(e, p.share).queuePair))
    else e
  }

  function Convert(p: Plan, enis: seq<Eni>): seq<Eni> {
    if enis == [] then [] else [ConvertOne(p, enis[0])] + Convert(p, enis[1..])
  }

  function Without(enis: seq<Eni>, ids: set<EniId>): seq<Eni> {
    if enis == [] then [] else (if enis[0].id in ids then [] else [enis[0]]) + Without(enis[1..], ids)
  }

  function Only(enis: seq<Eni>, ids: set<EniId>): seq<Eni> {
    if enis == [] then [] else (if enis[0].id in ids then [enis[0]] else []) + Only(enis[1..], ids)
  }

  function Ids(enis: seq<Eni>): set<EniId> {
    set e <- enis :: e.id
  }

  /** The interfaces made for p.create, one per card with the planned share, as the cloud lists them once attached. */
  ghost predicate MadeFor(p: Plan, enis: seq<Eni>, made: seq<Eni>) {
    && |made| == |p.create|
    && (forall k :: 0 <= k < |made| ==>
          IsRdma(made[k]) && made[k].queuePairs == Some(p.share) && CardIndex(made[k]) == p.create[k]
          && !made[k].isPrimary && made[k].id !in Ids(enis))
    && (forall i, j :: 0 <= i < j < |made| ==> made[i].id != made[j].id)
  }

  /** `after` lists the old interfaces in their old order, converted as planned, with the made ones anywhere between. */
  ghost predicate CarriedOut(p: Plan, enis: seq<Eni>, made: seq<Eni>, after: seq<Eni>) {
    && MadeFor(p, enis, made)
    && Without(after, Ids(made)) == Convert(p, enis)
    && multiset(Only(after, Ids(made))) == multiset(made)
  }

  // ---------- Filters ----------

  lemma {:induction false} FilterParts(enis: seq<Eni>, ids: set<EniId>)
    ensures forall e :: e in Without(enis, ids) <==> e in enis && e.id !in ids
    ensures forall e :: e in Only(enis, ids) <==> e in enis && e.id in ids
    ensures QueuePairTotal(enis) == QueuePairTotal(Without(enis, ids)) + QueuePairTotal(Only(enis, ids))
  {
    if enis != [] {
      FilterParts(enis[1..], ids);
      if enis[0].id in ids {
        assert Only(enis, ids)[1..] == Only(enis[1..], ids);
        assert Without(enis, ids) == Without(enis[1..], ids);
      } else {
        assert Without(enis, ids)[1..] == Without(enis[1..], ids);
        assert Only(enis, ids) == Only(enis[1..], ids);
      }
    }
  }

  lemma {:induction false} WithoutTwice(enis: seq<Eni>, a: set<EniId>, b: set<EniId>)
    ensures Without(Without(enis, a), b) == Without(enis, a + b)
  {
    if enis != [] {
      WithoutTwice(enis[1..], a, b);
      if enis[0].id !in a {
        assert Without(enis, a)[1..] == Without(enis[1..], a);
      } else {
        assert Without(enis, a) == Without(enis[1..], a);
      }
    }
  }

  lemma {:induction false} WithoutNothing(enis: seq<Eni>)
    ensures Without(enis, {}) == enis
  {
    if enis != [] {
      WithoutNothing(enis[1..]);
    }
  }

  lemma {:induction false} EqualShares(enis: seq<Eni>, share: int)
    requires forall e <- enis :: QueuePairs(e) == share
    ensures QueuePairTotal(enis) == |enis| * share
  {
    if enis != [] {
      EqualShares(enis[1..], share);
    }
  }

  /** The interfaces the plan switches over, in listing order. */
  function Switched(p: Plan, enis: seq<Eni>): seq<Eni> {
    if enis == [] then []
    else (if !IsRdma(enis[0]) && Plans(p, enis[0].id) then [enis[0]] else []) + Switched(p, enis[1..])
  }

  lemma {:induction false} SwitchedIds(p: Plan, enis: seq<Eni>)
    ensures forall e :: e in Switched(p, enis) <==> e in enis && !IsRdma(e) && Plans(p, e.id)
    ensures forall id :: id in Ids(Switched(p, enis)) <==>
      exists e :: e in enis && !IsRdma(e) && Plans(p, e.id) && e.id == id
  {
    if enis != [] {
      SwitchedIds(p, enis[1..]);
    }
  }

  lemma {:induction false} ConvertTotal(p: Plan, enis: seq<Eni>)
    requires forall e <- enis :: !IsRdma(e) ==> e.queuePairs.GetOr(0) <= 0
    ensures QueuePairTotal(Convert(p, enis)) == QueuePairTotal(enis) + |Switched(p, enis)| * p.share
  {
    if enis != [] {
      ConvertTotal(p, enis[1..]);
      assert Convert(p, enis)[1..] == Convert(p, enis[1..]);
      var gained := if !IsRdma(enis[0]) && Plans(p, enis[0].id) then p.share else 0;
      assert QueuePairs(ConvertOne(p, enis[0])) == QueuePairs(enis[0]) + gained;
      Distribute(|Switched(p, enis[1..])|, 1, p.share);
    }
  }

  lemma {:induction false} ConvertUntouched(p: Plan, enis: seq<Eni>)
    requires Switched(p, enis) == []
    ensures Convert(p, enis) == enis
  {
    if enis != [] {
      ConvertUntouched(p, enis[1..]);
    }
  }

  lemma {:induction false} ConvertElsewhere(p: Plan, enis: seq<Eni>, ids: set<EniId>)
    requires forall e <- enis :: !IsRdma(e) && Plans(p, e.id) ==> e.id in ids
    ensures Without(Convert(p, enis), ids) == Without(enis, ids)
  {
    if enis != [] {
      ConvertElsewhere(p, enis[1..], ids);
      assert Convert(p, enis)[1..] == Convert(p, enis[1..]);
    }
  }

  // ---------- What a plan switches over ----------

  /** Only the primary, only when the share is positive and card 0 was missing. */
  lemma SwitchedIsConversion(managed: bool, enis: seq<Eni>, limit: int, cardCount: int)
    requires InstanceListing(enis)
    requires PlanFor(managed, enis, limit, cardCount).Ok?
    ensures
      var p := PlanFor(managed, enis, limit, cardCount).value;
      forall e :: e in enis && !IsRdma(e) && Plans(p, e.id) ==> e in Conversion(managed, enis, limit, cardCount)
    ensures
      var p := PlanFor(managed, enis, limit, cardCount).value;
      forall e :: e in Used(managed, enis, limit, cardCount) ==> Plans(p, e.id)
  {
    var p := PlanFor(managed, enis, limit, cardCount).value;
    var used := Used(managed, enis, limit, cardCount);
    UsedOncePerCard(managed, enis, limit, cardCount);
    FirstPerCardPicks(managed, enis, {});
    forall e | e in enis && !IsRdma(e) && Plans(p, e.id)
      ensures e in Conversion(managed, enis, limit, cardCount)
    {
      var k :| 0 <= k < |p.eris| && p.eris[k].id == e.id;
      assert used[k] in enis && used[k].id == e.id;
      assert used[k] == e && e in used;
    }
    forall e | e in used
      ensures Plans(p, e.id)
    {
      var k :| 0 <= k < |used| && used[k] == e;
      assert p.eris[k].id == e.id;
    }
  }

  lemma {:induction false} SwitchedAtMost(p: Plan, enis: seq<Eni>)
    requires forall e <- Switched(p, enis) :: e.isPrimary
    ensures |Switched(p, enis)| <= |Primaries(enis)|
  {
    if enis != [] {
      SwitchedIds(p, enis);
      SwitchedIds(p, enis[1..]);
      SwitchedAtMost(p, enis[1..]);
    }
  }

  lemma SwitchedCount(managed: bool, enis: seq<Eni>, limit: int, cardCount: int)
    requires InstanceListing(enis)
    requires PlanFor(managed, enis, limit, cardCount).Ok?
    ensures
      var p := PlanFor(managed, enis, limit, cardCount).value;
      var missing := MissingCards(managed, enis, limit, cardCount);
      && (p.share > 0 ==> |Switched(p, enis)| + |p.create| <= |missing|)
      && (p.share <= 0 ==> Switched(p, enis) == [] && p.create == [])
  {
    var p := PlanFor(managed, enis, limit, cardCount).value;
    SwitchedIsConversion(managed, enis, limit, cardCount);
    ConversionParts(managed, enis, limit, cardCount);
    SwitchedIds(p, enis);
    SwitchedAtMost(p, enis);
    if Switched(p, enis) != [] {
      assert Switched(p, enis)[0] in Switched(p, enis);
    }
  }

  // ---------- The queue-pair budget ----------

  lemma Distribute(a: int, b: int, c: int)
    ensures (a + b) * c == a * c + b * c
  {}

  lemma AddedTotal(p: Plan, enis: seq<Eni>, made: seq<Eni>, after: seq<Eni>)
    requires CarriedOut(p, enis, made, after)
    ensures QueuePairTotal(Only(after, Ids(made))) == |p.create| * p.share
  {
    var added := Only(after, Ids(made));
    assert |added| == |made| by {
      assert |multiset(added)| == |multiset(made)|;
    }
    forall e | e in added
      ensures QueuePairs(e) == p.share
    {
      assert e in multiset(made);
    }
    EqualShares(added, p.share);
  }

  lemma AfterTotal(p: Plan, enis: seq<Eni>, made: seq<Eni>, after: seq<Eni>)
    requires forall e <- enis :: !IsRdma(e) ==> e.queuePairs.GetOr(0) <= 0
    requires CarriedOut(p, enis, made, after)
    ensures QueuePairTotal(after) == QueuePairTotal(enis) + |Switched(p, enis)| * p.share + |p.create| * p.share
  {
    var others, added := Without(after, Ids(made)), Only(after, Ids(made));
    assert QueuePairTotal(after) == QueuePairTotal(others) + QueuePairTotal(added) by {
      FilterParts(after, Ids(made));
    }
    ConvertTotal(p, enis);
    AddedTotal(p, enis, made, after);
  }

  lemma AfterShares(p: Plan, enis: seq<Eni>, made: seq<Eni>, after: seq<Eni>, n: nat)
    requires n == |Switched(p, enis)| + |p.create|
    requires forall e <- enis :: !IsRdma(e) ==> e.queuePairs.GetOr(0) <= 0
    requires CarriedOut(p, enis, made, after)
    ensures QueuePairTotal(after) == QueuePairTotal(enis) + n * p.share
  {
    AfterTotal(p, enis, made, after);
    Distribute(|Switched(p, enis)|, |p.create|, p.share);
  }

  /** The queue pairs a plan hands out. */
  function Spent(p: Plan, enis: seq<Eni>): int {
    (|Switched(p, enis)| + |p.create|) * p.share
  }

  lemma AfterSpent(p: Plan, enis: seq<Eni>, made: seq<Eni>, after: seq<Eni>)
    requires forall e <- enis :: !IsRdma(e) ==> e.queuePairs.GetOr(0) <= 0
    requires CarriedOut(p, enis, made, after)
    ensures QueuePairTotal(after) == QueuePairTotal(enis) + Spent(p, enis)
  {
    AfterShares(p, enis, made, after, |Switched(p, enis)| + |p.create|);
  }

  /** The share is the largest equal share of the unused queue pairs over the missing cards. */
  lemma ShareIsLargest(managed: bool, enis: seq<Eni>, limit: int, cardCount: int, s: int)
    requires MissingCards(managed, enis, limit, cardCount) != []
    ensures
      var missing := MissingCards(managed, enis, limit, cardCount);
      |missing| * s <= limit - QueuePairTotal(enis) <==> s <= Share(managed, enis, limit, cardCount)
  {
    LargestShare(limit - QueuePairTotal(enis), |MissingCards(managed, enis, limit, cardCount)|, s);
  }

  lemma SharesFit(n: nat, m: nat, share: nat, used: int, limit: int, after: int)
    requires n <= m && used + m * share <= limit && after == used + n * share
    ensures after <= limit
  {
    assert n * share <= m * share;
  }

  /** If the existing RDMA interfaces fit the limit, they still fit it after the plan has been carried out. */
  lemma PlanKeepsBudget(managed: bool, enis: seq<Eni>, limit: int, cardCount: int, made: seq<Eni>, after: seq<Eni>)
    requires InstanceListing(enis) && QueuePairTotal(enis) <= limit
    requires PlanFor(managed, enis, limit, cardCount).Ok?
    requires CarriedOut(PlanFor(managed, enis, limit, cardCount).value, enis, made, after)
    ensures QueuePairTotal(after) <= limit
  {
    var p := PlanFor(managed, enis, limit, cardCount).value;
    var n := |Switched(p, enis)| + |p.create|;
    SwitchedCount(managed, enis, limit, cardCount);
    AfterShares(p, enis, made, after, n);
    BudgetHolds(managed, enis, limit, cardCount, n, QueuePairTotal(after));
  }

  lemma BudgetHolds(managed: bool, enis: seq<Eni>, limit: int, cardCount: int, n: nat, after: int)
    requires QueuePairTotal(enis) <= limit
    requires n <= |MissingCards(managed, enis, limit, cardCount)| || n == 0
    requires after == QueuePairTotal(enis) + n * Share(managed, enis, limit, cardCount)
    ensures after <= limit
  {
    PlanParts(managed, enis, limit, cardCount);
    if n > 0 {
      SharesFit(n, |MissingCards(managed, enis, limit, cardCount)|, Share(managed, enis, limit, cardCount),
                QueuePairTotal(enis), limit, after);
    }
  }

  /** Nothing is created or converted when there is nothing to hand out; in particular when the existing RDMA
      interfaces exceed the limit. */
  lemma NoShareNoChange(managed: bool, enis: seq<Eni>, limit: int, cardCount: int, made: seq<Eni>, after: seq<Eni>)
    requires InstanceListing(enis)
    requires PlanFor(managed, enis, limit, cardCount).Ok?
    requires CarriedOut(PlanFor(managed, enis, limit, cardCount).value, enis, made, after)
    ensures QueuePairTotal(enis) > limit ==> PlanFor(managed, enis, limit, cardCount).value.share == 0
    ensures PlanFor(managed, enis, limit, cardCount).value.share == 0 ==> after == enis && made == []
  {
    var p := PlanFor(managed, enis, limit, cardCount).value;
    PlanParts(managed, enis, limit, cardCount);
    SwitchedCount(managed, enis, limit, cardCount);
    if p.share == 0 {
      Untouched(p, enis, made, after);
    }
  }

  lemma Untouched(p: Plan, enis: seq<Eni>, made: seq<Eni>, after: seq<Eni>)
    requires CarriedOut(p, enis, made, after) && Switched(p, enis) == [] && p.create == []
    ensures after == enis
  {
    assert made == [] && Ids(made) == {};
    WithoutNothing(after);
    ConvertUntouched(p, enis);
  }

  // ---------- Planning again ----------

  /** No added interface shares its card with another eligible one. */
  ghost predicate OwnCards(managed: bool, enis: seq<Eni>, added: set<EniId>) {
    if enis == [] then true
    else
      && (forall x <- enis[1..] ::
            enis[0].id in added || x.id in added ==> Eligible(managed, enis[0]) && Eligible(managed, x) ==>
            CardIndex(x) != CardIndex(enis[0]))
      && OwnCards(managed, enis[1..], added)
  }

  /** Interfaces on cards of their own, wherever they are listed, are chosen in addition to what was chosen before. */
  lemma {:induction false} FirstPerCardWith(managed: bool, enis: seq<Eni>, added: set<EniId>, taken: set<int>)
    requires forall e <- enis :: e.id in added ==> Eligible(managed, e) && CardIndex(e) !in taken
    requires OwnCards(managed, enis, added)
    ensures forall e :: e in FirstPerCard(managed, enis, taken) <==>
      e in FirstPerCard(managed, Without(enis, added), taken) || (e in enis && e.id in added)
  {
    if enis != [] {
      var e, tail := enis[0], enis[1..];
      var taken' := if Eligible(managed, e) && CardIndex(e) !in taken then taken + {CardIndex(e)} else taken;
      FirstPerCardWith(managed, tail, added, taken');
      if e.id in added {
        FilterParts(tail, added);
        TakenElsewhere(managed, Without(tail, added), taken, CardIndex(e));
        assert Without(enis, added) == Without(tail, added);
      } else {
        assert Without(enis, added) == [e] + Without(tail, added);
      }
    }
  }

  lemma {:induction false} TakenElsewhere(managed: bool, enis: seq<Eni>, taken: set<int>, card: int)
    requires forall e <- enis :: Eligible(managed, e) ==> CardIndex(e) != card
    ensures FirstPerCard(managed, enis, taken + {card}) == FirstPerCard(managed, enis, taken)
  {
    if enis != [] {
      var c := CardIndex(enis[0]);
      TakenElsewhere(managed, enis[1..], taken, card);
      TakenElsewhere(managed, enis[1..], taken + {c}, card);
      assert taken + {c} + {card} == taken + {card} + {c};
    }
  }

  lemma {:induction false} FirstPerCardIgnores(managed: bool, enis: seq<Eni>, ids: set<EniId>, taken: set<int>)
    requires forall e <- enis :: e.id in ids ==> !Eligible(managed, e)
    ensures FirstPerCard(managed, Without(enis, ids), taken) == FirstPerCard(managed, enis, taken)
  {
    if enis != [] {
      FirstPerCardIgnores(managed, enis[1..], ids, taken);
      FirstPerCardIgnores(managed, enis[1..], ids, taken + {CardIndex(enis[0])});
      if enis[0].id in ids {
        assert Without(enis, ids) == Without(enis[1..], ids);
      } else {
        assert Without(enis, ids) == [enis[0]] + Without(enis[1..], ids);
      }
    }
  }

  lemma {:induction false} OwnCardsFrom(managed: bool, enis: seq<Eni>, added: set<EniId>)
    requires forall i, j :: 0 <= i < j < |enis| ==> enis[i].id != enis[j].id
    requires forall e, x ::
      (e in enis && x in enis && e.id in added && e.id != x.id && Eligible(managed, e) && Eligible(managed, x)) ==>
      CardIndex(e) != CardIndex(x)
    ensures OwnCards(managed, enis, added)
  {
    if enis != [] {
      assert forall x :: x in enis[1..] ==> x in enis;
      OwnCardsFrom(managed, enis[1..], added);
    }
  }

  lemma {:induction false} Converted(p: Plan, enis: seq<Eni>)
    ensures forall e :: e in Convert(p, enis) <==> exists y :: y in enis && e == ConvertOne(p, y)
  {
    if enis != [] {
      Converted(p, enis[1..]);
      forall e
        ensures e in Convert(p, enis) <==> exists y :: y in enis && e == ConvertOne(p, y)
      {
        if e in Convert(p, enis[1..]) {
          var y :| y in enis[1..] && e == ConvertOne(p, y);
          assert y in enis;
        }
        if y :| y in enis && e == ConvertOne(p, y) {
          assert y == enis[0] || y in enis[1..];
        }
      }
    }
  }

  /** Everything listed after the plan was carried out is either made for it or an old interface, converted or not. */
  lemma AfterElements(p: Plan, enis: seq<Eni>, made: seq<Eni>, after: seq<Eni>)
    requires CarriedOut(p, enis, made, after)
    ensures forall e :: e in after <==> e in made || exists y :: y in enis && e == ConvertOne(p, y)
    ensures forall e :: e in after ==> (e.id in Ids(made) <==> e in made)
  {
    FilterParts(after, Ids(made));
    Converted(p, enis);
    forall e
      ensures e in Only(after, Ids(made)) <==> e in made
    {
      assert e in multiset(Only(after, Ids(made))) <==> e in multiset(made);
    }
    forall y | y in enis
      ensures ConvertOne(p, y).id in Ids(enis)
    {}
  }

  /** Where a plan's interfaces sit on its cards. */
  ghost predicate Sits(eris: seq<Eri>, id: EniId, card: int) {
    exists k :: 0 <= k < |eris| && eris[k].id == id && eris[k].card == card
  }

  lemma SitsIffUsed(used: seq<Eni>, share: int, id: EniId, card: int)
    ensures Sits(ToEris(used, share), id, card) <==> exists e :: e in used && e.id == id && CardIndex(e) == card
  {
    if e :| e in used && e.id == id && CardIndex(e) == card {
      var k :| 0 <= k < |used| && used[k] == e;
      assert ToEris(used, share)[k].id == id;
    }
    if Sits(ToEris(used, share), id, card) {
      var k :| 0 <= k < |used| && ToEris(used, share)[k].id == id && ToEris(used, share)[k].card == card;
      assert used[k] in used;
    }
  }
}
