/** Planning again after a plan has been carried out: when it selects the same interfaces once more. */
module Replan {
  import opened Prelude
  import opened EniTypes
  import opened Planner
  import opened PlannerProperties
  import opened PlanExecution

  ghost predicate Carried(managed: bool, enis: seq<Eni>, limit: int, cardCount: int, made: seq<Eni>, after: seq<Eni>) {
    && InstanceListing(enis) && InstanceListing(after)
    && PlanFor(managed, enis, limit, cardCount).Ok?
    && CarriedOut(PlanFor(managed, enis, limit, cardCount).value, enis, made, after)
    && forall e <- made :: Owns(managed, e)
  }

  // ---------- What the planner can choose in addition ----------

  /** The planned primary, owned already and not yet RDMA, becomes eligible by being switched over. */
  predicate Gains(managed: bool, p: Plan, y: Eni) {
    !IsRdma(y) && Plans(p, y.id) && Owns(managed, y)
  }

  function OwnedSwitched(managed: bool, p: Plan, enis: seq<Eni>): set<EniId> {
    set y <- enis | Gains(managed, p, y) :: y.id
  }

  /** The interfaces that became eligible while the plan was carried out. */
  ghost function Gained(managed: bool, p: Plan, enis: seq<Eni>, made: seq<Eni>): set<EniId> {
    Ids(made) + OwnedSwitched(managed, p, enis)
  }

  lemma InSwitched(managed: bool, p: Plan, enis: seq<Eni>, y: Eni)
    requires InstanceListing(enis) && y in enis
    ensures y.id in OwnedSwitched(managed, p, enis) <==> Gains(managed, p, y)
  {
    if y.id in OwnedSwitched(managed, p, enis) {
      var z :| z in enis && Gains(managed, p, z) && z.id == y.id;
      assert z == y;
    }
  }

  lemma SwitchedIsFirst(managed: bool, enis: seq<Eni>, limit: int, cardCount: int, y: Eni)
    requires InstanceListing(enis) && PlanFor(managed, enis, limit, cardCount).Ok? && y in enis
    requires !IsRdma(y) && Plans(PlanFor(managed, enis, limit, cardCount).value, y.id)
    ensures
      && y in Conversion(managed, enis, limit, cardCount) && CardIndex(y) == 0
      && 0 !in Cards(FirstPerCard(managed, enis, {})) && 0 !in PlanFor(managed, enis, limit, cardCount).value.create
  {
    SwitchedIsConversion(managed, enis, limit, cardCount);
    ConversionParts(managed, enis, limit, cardCount);
    MissingAre(Cards(FirstPerCard(managed, enis, {})), 1, cardCount);
  }

  /** Where an eligible interface found afterwards sits: an old one on a card that had one, a switched one on
      card 0, a made one on a card of the create list. */
  ghost predicate Placed(managed: bool, p: Plan, enis: seq<Eni>, made: seq<Eni>, before: set<int>, e: Eni) {
    && (e.id !in Gained(managed, p, enis, made) ==> CardIndex(e) in before)
    && (e.id in OwnedSwitched(managed, p, enis) ==> CardIndex(e) == 0 && 0 !in before && 0 !in p.create)
    && (e.id in Ids(made) ==> e in made && CardIndex(e) in p.create && CardIndex(e) !in before)
  }

  lemma PlacedAfter(managed: bool, enis: seq<Eni>, limit: int, cardCount: int, made: seq<Eni>, after: seq<Eni>, e: Eni)
    requires Carried(managed, enis, limit, cardCount, made, after)
    requires PlanFor(managed, enis, limit, cardCount).value.share > 0
    requires e in after && Eligible(managed, e)
    ensures Placed(managed, PlanFor(managed, enis, limit, cardCount).value, enis, made,
                   Cards(FirstPerCard(managed, enis, {})), e)
  {
    var p := PlanFor(managed, enis, limit, cardCount).value;
    AfterElements(p, enis, made, after);
    if e in made {
      MadeOnCreated(managed, enis, limit, cardCount, made, e);
    } else {
      var y :| y in enis && e == ConvertOne(p, y);
      OldStays(managed, enis, limit, cardCount, y);
    }
  }

  lemma MadeOnCreated(managed: bool, enis: seq<Eni>, limit: int, cardCount: int, made: seq<Eni>, e: Eni)
    requires PlanFor(managed, enis, limit, cardCount).Ok?
    requires MadeFor(PlanFor(managed, enis, limit, cardCount).value, enis, made)
    requires e in made
    ensures
      var p := PlanFor(managed, enis, limit, cardCount).value;
      && CardIndex(e) in p.create && CardIndex(e) !in Cards(FirstPerCard(managed, enis, {}))
      && IsRdma(e) && e.id !in OwnedSwitched(managed, p, enis)
  {
    var p := PlanFor(managed, enis, limit, cardCount).value;
    MissingAre(Cards(FirstPerCard(managed, enis, {})), 0, cardCount);
    MissingAre(Cards(FirstPerCard(managed, enis, {})), 1, cardCount);
    var k :| 0 <= k < |made| && made[k] == e;
    assert CardIndex(e) == p.create[k];
    assert e.id !in Ids(enis);
  }

  lemma OldStays(managed: bool, enis: seq<Eni>, limit: int, cardCount: int, y: Eni)
    requires InstanceListing(enis) && PlanFor(managed, enis, limit, cardCount).Ok? && y in enis
    ensures
      var p := PlanFor(managed, enis, limit, cardCount).value;
      var before := Cards(FirstPerCard(managed, enis, {}));
      && (y.id !in OwnedSwitched(managed, p, enis) && Eligible(managed, ConvertOne(p, y)) ==> CardIndex(y) in before)
      && (y.id in OwnedSwitched(managed, p, enis) ==> CardIndex(y) == 0 && 0 !in before && 0 !in p.create)
  {
    var p := PlanFor(managed, enis, limit, cardCount).value;
    InSwitched(managed, p, enis, y);
    if Gains(managed, p, y) {
      SwitchedIsFirst(managed, enis, limit, cardCount, y);
    } else {
      FirstPerCardPicks(managed, enis, {});
    }
  }

  lemma MadeApart(p: Plan, enis: seq<Eni>, made: seq<Eni>, e: Eni, x: Eni)
    requires MadeFor(p, enis, made) && e in made && x in made && e.id != x.id
    requires forall i, j :: 0 <= i < j < |p.create| ==> p.create[i] < p.create[j]
    ensures CardIndex(e) != CardIndex(x)
  {
    var i :| 0 <= i < |made| && made[i] == e;
    var j :| 0 <= j < |made| && made[j] == x;
    assert CardIndex(e) == p.create[i] && CardIndex(x) == p.create[j];
  }

  lemma GainedApart(managed: bool, enis: seq<Eni>, limit: int, cardCount: int, made: seq<Eni>, after: seq<Eni>, e: Eni,
                    x: Eni)
    requires Carried(managed, enis, limit, cardCount, made, after)
    requires PlanFor(managed, enis, limit, cardCount).value.share > 0
    requires e in after && x in after && e.id != x.id && Eligible(managed, e) && Eligible(managed, x)
    requires e.id in Gained(managed, PlanFor(managed, enis, limit, cardCount).value, enis, made)
    ensures CardIndex(e) != CardIndex(x)
  {
    var p := PlanFor(managed, enis, limit, cardCount).value;
    PlacedAfter(managed, enis, limit, cardCount, made, after, e);
    PlacedAfter(managed, enis, limit, cardCount, made, after, x);
    if e.id in Ids(made) && x.id in Ids(made) {
      CreateAscends(managed, enis, limit, cardCount);
      MadeApart(p, enis, made, e, x);
    } else if e.id in OwnedSwitched(managed, p, enis) && x.id in OwnedSwitched(managed, p, enis) {
      OneSwitched(managed, enis, limit, cardCount, e.id, x.id);
    }
  }

  lemma OneSwitched(managed: bool, enis: seq<Eni>, limit: int, cardCount: int, a: EniId, b: EniId)
    requires InstanceListing(enis) && PlanFor(managed, enis, limit, cardCount).Ok?
    requires
      var switched := OwnedSwitched(managed, PlanFor(managed, enis, limit, cardCount).value, enis);
      a in switched && b in switched
    ensures a == b
  {
    var p := PlanFor(managed, enis, limit, cardCount).value;
    var y :| y in enis && Gains(managed, p, y) && y.id == a;
    var z :| z in enis && Gains(managed, p, z) && z.id == b;
    SwitchedIsFirst(managed, enis, limit, cardCount, y);
    SwitchedIsFirst(managed, enis, limit, cardCount, z);
    AtMostOne(managed, enis, limit, cardCount, y, z);
  }

  lemma AtMostOne(managed: bool, enis: seq<Eni>, limit: int, cardCount: int, y: Eni, z: Eni)
    requires |Primaries(enis)| <= 1
    requires y in Conversion(managed, enis, limit, cardCount) && z in Conversion(managed, enis, limit, cardCount)
    ensures y == z
  {
    ConversionParts(managed, enis, limit, cardCount);
  }

  lemma GainedHaveOwnCards(managed: bool, enis: seq<Eni>, limit: int, cardCount: int, made: seq<Eni>, after: seq<Eni>)
    requires Carried(managed, enis, limit, cardCount, made, after)
    requires PlanFor(managed, enis, limit, cardCount).value.share > 0
    ensures OwnCards(managed, after, Gained(managed, PlanFor(managed, enis, limit, cardCount).value, enis, made))
  {
    var gained := Gained(managed, PlanFor(managed, enis, limit, cardCount).value, enis, made);
    forall e, x | e in after && x in after && e.id in gained && e.id != x.id
                  && Eligible(managed, e) && Eligible(managed, x)
      ensures CardIndex(e) != CardIndex(x)
    {
      GainedApart(managed, enis, limit, cardCount, made, after, e, x);
    }
    OwnCardsFrom(managed, after, gained);
  }

  /** Converting an interface that is not owned, or not looked at, leaves the choice as it was. */
  lemma {:induction false} ConvertedChoice(managed: bool, p: Plan, enis: seq<Eni>, ids: set<EniId>, taken: set<int>)
    requires forall y <- enis :: Gains(managed, p, y) ==> y.id in ids
    ensures
      FirstPerCard(managed, Without(Convert(p, enis), ids), taken) ==
      FirstPerCard(managed, Without(enis, ids), taken)
  {
    if enis != [] {
      var e, c := enis[0], ConvertOne(p, enis[0]);
      assert Convert(p, enis)[1..] == Convert(p, enis[1..]);
      ConvertedChoice(managed, p, enis[1..], ids, taken);
      ConvertedChoice(managed, p, enis[1..], ids, taken + {CardIndex(e)});
      if e.id !in ids {
        assert Without(Convert(p, enis), ids) == [c] + Without(Convert(p, enis[1..]), ids);
        assert Without(enis, ids) == [e] + Without(enis[1..], ids);
        assert Eligible(managed, c) <==> Eligible(managed, e);
        assert Eligible(managed, e) ==> c == e;
      } else {
        assert Without(Convert(p, enis), ids) == Without(Convert(p, enis[1..]), ids);
        assert Without(enis, ids) == Without(enis[1..], ids);
      }
    }
  }

  lemma GainedAreEligible(managed: bool, enis: seq<Eni>, limit: int, cardCount: int, made: seq<Eni>, after: seq<Eni>,
                          e: Eni)
    requires Carried(managed, enis, limit, cardCount, made, after)
    requires e in after && e.id in Gained(managed, PlanFor(managed, enis, limit, cardCount).value, enis, made)
    ensures Eligible(managed, e)
  {
    var p := PlanFor(managed, enis, limit, cardCount).value;
    AfterElements(p, enis, made, after);
    if e in made {
      var k :| 0 <= k < |made| && made[k] == e;
    } else {
      var y :| y in enis && e == ConvertOne(p, y);
      InSwitched(managed, p, enis, y);
    }
  }

  /** The second choice is the first choice plus everything that became eligible. */
  lemma ChosenAgain(managed: bool, enis: seq<Eni>, limit: int, cardCount: int, made: seq<Eni>, after: seq<Eni>)
    requires Carried(managed, enis, limit, cardCount, made, after)
    requires PlanFor(managed, enis, limit, cardCount).value.share > 0
    ensures
      var p := PlanFor(managed, enis, limit, cardCount).value;
      forall e :: e in FirstPerCard(managed, after, {}) <==>
        e in FirstPerCard(managed, enis, {}) || (e in after && e.id in Gained(managed, p, enis, made))
  {
    var p := PlanFor(managed, enis, limit, cardCount).value;
    var switched := OwnedSwitched(managed, p, enis);
    WithoutTwice(after, Ids(made), switched);
    ConvertedChoice(managed, p, enis, switched, {});
    forall e | e in enis && e.id in switched
      ensures !Eligible(managed, e)
    {
      InSwitched(managed, p, enis, e);
    }
    FirstPerCardIgnores(managed, enis, switched, {});
    GainedHaveOwnCards(managed, enis, limit, cardCount, made, after);
    forall e | e in after && e.id in Gained(managed, p, enis, made)
      ensures Eligible(managed, e)
    {
      GainedAreEligible(managed, enis, limit, cardCount, made, after, e);
    }
    FirstPerCardWith(managed, after, Gained(managed, p, enis, made), {});
  }

  /** The same with the interfaces named: kept ones, made ones, and the converted primary if it is owned. */
  lemma ChosenAgainAre(managed: bool, enis: seq<Eni>, limit: int, cardCount: int, made: seq<Eni>, after: seq<Eni>,
                       e: Eni)
    requires Carried(managed, enis, limit, cardCount, made, after)
    requires PlanFor(managed, enis, limit, cardCount).value.share > 0
    ensures
      e in FirstPerCard(managed, after, {}) <==>
        e in FirstPerCard(managed, enis, {}) || e in made || FromOwnedPrimary(managed, enis, limit, cardCount, e)
  {
    ChosenAgain(managed, enis, limit, cardCount, made, after);
    GainedAre(managed, enis, limit, cardCount, made, after, e);
  }

  ghost predicate FromOwnedPrimary(managed: bool, enis: seq<Eni>, limit: int, cardCount: int, e: Eni)
    requires PlanFor(managed, enis, limit, cardCount).Ok?
  {
    exists z :: z in Conversion(managed, enis, limit, cardCount) && Owns(managed, z)
                && e == ConvertOne(PlanFor(managed, enis, limit, cardCount).value, z)
  }

  lemma GainedAre(managed: bool, enis: seq<Eni>, limit: int, cardCount: int, made: seq<Eni>, after: seq<Eni>, e: Eni)
    requires Carried(managed, enis, limit, cardCount, made, after)
    ensures e in after && e.id in Gained(managed, PlanFor(managed, enis, limit, cardCount).value, enis, made) <==>
      e in made || FromOwnedPrimary(managed, enis, limit, cardCount, e)
  {
    var p := PlanFor(managed, enis, limit, cardCount).value;
    AfterElements(p, enis, made, after);
    if e in after && e.id in OwnedSwitched(managed, p, enis) && e !in made {
      var y :| y in enis && e == ConvertOne(p, y);
      InSwitched(managed, p, enis, y);
      SwitchedIsFirst(managed, enis, limit, cardCount, y);
    }
    if FromOwnedPrimary(managed, enis, limit, cardCount, e) {
      var z :| z in Conversion(managed, enis, limit, cardCount) && Owns(managed, z) && e == ConvertOne(p, z);
      ConversionIsPlanned(managed, enis, limit, cardCount, z);
      InSwitched(managed, p, enis, z);
    }
  }

  lemma ConversionIsPlanned(managed: bool, enis: seq<Eni>, limit: int, cardCount: int, z: Eni)
    requires InstanceListing(enis) && PlanFor(managed, enis, limit, cardCount).Ok?
    requires z in Conversion(managed, enis, limit, cardCount)
    ensures z in enis && z.isPrimary && CardIndex(z) == 0 && Plans(PlanFor(managed, enis, limit, cardCount).value, z.id)
    ensures Owns(managed, z) ==> !IsRdma(z)
  {
    ConversionParts(managed, enis, limit, cardCount);
    SwitchedIsConversion(managed, enis, limit, cardCount);
    FirstPerCardPicks(managed, enis, {});
    assert z in Used(managed, enis, limit, cardCount);
  }

  // ---------- What is missing afterwards ----------

  /** The primary serves card 0 without being owned: nothing the next plan looks at serves card 0. */
  ghost predicate Unowned(managed: bool, conv: seq<Eni>) {
    exists z :: z in conv && !Owns(managed, z)
  }

  /** A card is served by something eligible afterwards, unless it is card 0 with the primary not owned. */
  lemma CardServed(managed: bool, enis: seq<Eni>, limit: int, cardCount: int, made: seq<Eni>, after: seq<Eni>, c: int)
    requires Carried(managed, enis, limit, cardCount, made, after)
    requires PlanFor(managed, enis, limit, cardCount).value.share > 0 && 0 <= c < cardCount
    ensures c in Cards(FirstPerCard(managed, after, {})) <==>
      !(c == 0 && Unowned(managed, Conversion(managed, enis, limit, cardCount)))
  {
    var p, conv := PlanFor(managed, enis, limit, cardCount).value, Conversion(managed, enis, limit, cardCount);
    var chosen, chosen' := FirstPerCard(managed, enis, {}), FirstPerCard(managed, after, {});
    ConversionParts(managed, enis, limit, cardCount);
    MissingAre(Cards(chosen), 0, cardCount);
    MissingAre(Cards(chosen), 1, cardCount);
    if c in Cards(chosen) {
      var e :| e in chosen && CardIndex(e) == c;
      ChosenAgainAre(managed, enis, limit, cardCount, made, after, e);
      assert e in chosen';
    } else if c in p.create {
      var k :| 0 <= k < |p.create| && p.create[k] == c;
      assert made[k] in made;
      ChosenAgainAre(managed, enis, limit, cardCount, made, after, made[k]);
      assert made[k] in chosen';
    } else {
      assert c == 0 && conv != [] && conv[0] in conv;
      PrimaryServes(managed, enis, limit, cardCount, made, after);
    }
  }

  lemma PrimaryServes(managed: bool, enis: seq<Eni>, limit: int, cardCount: int, made: seq<Eni>, after: seq<Eni>)
    requires Carried(managed, enis, limit, cardCount, made, after)
    requires PlanFor(managed, enis, limit, cardCount).value.share > 0
    requires Conversion(managed, enis, limit, cardCount) != []
    ensures 0 in Cards(FirstPerCard(managed, after, {})) <==>
      !Unowned(managed, Conversion(managed, enis, limit, cardCount))
  {
    var p, conv := PlanFor(managed, enis, limit, cardCount).value, Conversion(managed, enis, limit, cardCount);
    var chosen' := FirstPerCard(managed, after, {});
    ConversionParts(managed, enis, limit, cardCount);
    assert conv == [conv[0]] && conv[0] in conv;
    ConversionIsPlanned(managed, enis, limit, cardCount, conv[0]);
    if Owns(managed, conv[0]) {
      ChosenAgainAre(managed, enis, limit, cardCount, made, after, ConvertOne(p, conv[0]));
      assert FromOwnedPrimary(managed, enis, limit, cardCount, ConvertOne(p, conv[0]));
      assert ConvertOne(p, conv[0]) in chosen';
    } else {
      forall e | e in chosen'
        ensures CardIndex(e) != 0
      {
        ChosenAgainAre(managed, enis, limit, cardCount, made, after, e);
        if e in made {
          MadeOffCardZero(managed, enis, limit, cardCount, made, e);
        }
      }
    }
  }

  lemma MadeOffCardZero(managed: bool, enis: seq<Eni>, limit: int, cardCount: int, made: seq<Eni>, e: Eni)
    requires PlanFor(managed, enis, limit, cardCount).Ok?
    requires MadeFor(PlanFor(managed, enis, limit, cardCount).value, enis, made)
    requires Conversion(managed, enis, limit, cardCount) != [] && e in made
    ensures CardIndex(e) != 0
  {
    MissingAre(Cards(FirstPerCard(managed, enis, {})), 1, cardCount);
    var k :| 0 <= k < |made| && made[k] == e;
    assert CardIndex(e) == PlanFor(managed, enis, limit, cardCount).value.create[k];
  }

  lemma {:induction false} NoneMissing(taken: set<int>, from: int, cardCount: int)
    requires forall c | from <= c < cardCount :: c in taken
    ensures Missing(taken, from, cardCount) == []
    decreases cardCount - from
  {
    if from < cardCount {
      NoneMissing(taken, from + 1, cardCount);
    }
  }

  /** Afterwards the only card that can be missing is card 0, where the primary serves without being owned. */
  lemma MissingAgain(managed: bool, enis: seq<Eni>, limit: int, cardCount: int, made: seq<Eni>, after: seq<Eni>)
    requires Carried(managed, enis, limit, cardCount, made, after)
    requires PlanFor(managed, enis, limit, cardCount).value.share > 0
    ensures
      var cards := Cards(FirstPerCard(managed, after, {}));
      && Missing(cards, 1, cardCount) == []
      && (0 in cards <==> !Unowned(managed, Conversion(managed, enis, limit, cardCount)))
      && Missing(cards, 0, cardCount) ==
         if Unowned(managed, Conversion(managed, enis, limit, cardCount)) then [0] else []
  {
    var cards := Cards(FirstPerCard(managed, after, {}));
    PlanParts(managed, enis, limit, cardCount);
    assert cardCount > 0;
    forall c | 0 <= c < cardCount
      ensures c in cards <==> !(c == 0 && Unowned(managed, Conversion(managed, enis, limit, cardCount)))
    {
      CardServed(managed, enis, limit, cardCount, made, after, c);
    }
    NoneMissing(cards, 1, cardCount);
  }

  // ---------- The second plan ----------

  /** The queue pairs that equal shares leave over. */
  function Leftover(managed: bool, enis: seq<Eni>, limit: int, cardCount: int): int
    requires PlanFor(managed, enis, limit, cardCount).Ok?
  {
    limit - QueuePairTotal(enis) - Spent(PlanFor(managed, enis, limit, cardCount).value, enis)
  }

  lemma LeftoverIs(managed: bool, enis: seq<Eni>, limit: int, cardCount: int, made: seq<Eni>, after: seq<Eni>)
    requires Carried(managed, enis, limit, cardCount, made, after) && QueuePairTotal(enis) <= limit
    ensures Leftover(managed, enis, limit, cardCount) == limit - QueuePairTotal(after) >= 0
  {
    PlanKeepsBudget(managed, enis, limit, cardCount, made, after);
    LeftoverEquals(managed, enis, limit, cardCount, made, after);
  }

  lemma LeftoverEquals(managed: bool, enis: seq<Eni>, limit: int, cardCount: int, made: seq<Eni>, after: seq<Eni>)
    requires Carried(managed, enis, limit, cardCount, made, after)
    ensures Leftover(managed, enis, limit, cardCount) == limit - QueuePairTotal(after)
  {
    AfterSpent(PlanFor(managed, enis, limit, cardCount).value, enis, made, after);
  }

  /** Planning again gives the interfaces kept, converted and made, on the same cards, and creates nothing. */
  ghost predicate SameAgain(p: Plan, made: seq<Eni>, again: Result<Plan, PlanError>) {
    && again.Ok? && again.value.create == []
    && forall id, card :: Sits(again.value.eris, id, card) <==> Sits(p.eris, id, card) || Standing(made, id, card)
  }

  /** The list has this interface on this card. */
  ghost predicate Standing(enis: seq<Eni>, id: EniId, card: int) {
    exists e :: e in enis && e.id == id && CardIndex(e) == card
  }

  lemma PrimaryAfter(managed: bool, enis: seq<Eni>, limit: int, cardCount: int, made: seq<Eni>, after: seq<Eni>, e: Eni)
    requires Carried(managed, enis, limit, cardCount, made, after)
    requires Conversion(managed, enis, limit, cardCount) != []
    ensures
      var p, conv := PlanFor(managed, enis, limit, cardCount).value, Conversion(managed, enis, limit, cardCount);
      e in Primaries(after) <==> exists z :: z in conv && e == ConvertOne(p, z)
  {
    var p, conv := PlanFor(managed, enis, limit, cardCount).value, Conversion(managed, enis, limit, cardCount);
    PrimariesAre(after);
    PrimariesAre(enis);
    AfterElements(p, enis, made, after);
    assert conv == Primaries(enis);
    if e in made {
      var k :| 0 <= k < |made| && made[k] == e;
    }
  }

  /** What is left over decides whether the second plan can give card 0 to the primary again. */
  lemma SecondPlan(managed: bool, enis: seq<Eni>, limit: int, cardCount: int, made: seq<Eni>, after: seq<Eni>)
    requires Carried(managed, enis, limit, cardCount, made, after)
    requires PlanFor(managed, enis, limit, cardCount).value.share > 0
    ensures
      var conv := Conversion(managed, enis, limit, cardCount);
      var left := Leftover(managed, enis, limit, cardCount);
      && Share(managed, after, limit, cardCount) == (if Unowned(managed, conv) then left else 0)
      && Conversion(managed, after, limit, cardCount) ==
         (if Unowned(managed, conv) && left > 0 then Primaries(after) else [])
      && (PlanFor(managed, after, limit, cardCount).Ok? ==>
          PlanFor(managed, after, limit, cardCount).value.create == [])
  {
    PlanParts(managed, enis, limit, cardCount);
    LeftoverIs(managed, enis, limit, cardCount, made, after);
    MissingAgain(managed, enis, limit, cardCount, made, after);
    if Unowned(managed, Conversion(managed, enis, limit, cardCount)) {
      var z :| z in Conversion(managed, enis, limit, cardCount) && !Owns(managed, z);
      PrimaryAfter(managed, enis, limit, cardCount, made, after,
                   ConvertOne(PlanFor(managed, enis, limit, cardCount).value, z));
    }
  }

  /** What the second plan uses, where it can use the primary again or need not. */
  lemma UsedAgain(managed: bool, enis: seq<Eni>, limit: int, cardCount: int, made: seq<Eni>, after: seq<Eni>, e: Eni)
    requires Carried(managed, enis, limit, cardCount, made, after)
    requires PlanFor(managed, enis, limit, cardCount).value.share > 0
    requires
      || !Unowned(managed, Conversion(managed, enis, limit, cardCount))
      || Leftover(managed, enis, limit, cardCount) > 0
    ensures
      var p, conv := PlanFor(managed, enis, limit, cardCount).value, Conversion(managed, enis, limit, cardCount);
      e in Used(managed, after, limit, cardCount) <==>
        e in FirstPerCard(managed, enis, {}) || e in made || exists z :: z in conv && e == ConvertOne(p, z)
  {
    ConversionParts(managed, enis, limit, cardCount);
    SecondPlan(managed, enis, limit, cardCount, made, after);
    ChosenAgainAre(managed, enis, limit, cardCount, made, after, e);
    if Conversion(managed, enis, limit, cardCount) != [] {
      PrimaryAfter(managed, enis, limit, cardCount, made, after, e);
    }
  }

  lemma PlaceAgain(managed: bool, enis: seq<Eni>, limit: int, cardCount: int, made: seq<Eni>, after: seq<Eni>,
                   id: EniId, card: int)
    requires Carried(managed, enis, limit, cardCount, made, after)
    requires PlanFor(managed, enis, limit, cardCount).value.share > 0
    requires
      || !Unowned(managed, Conversion(managed, enis, limit, cardCount))
      || Leftover(managed, enis, limit, cardCount) > 0
    ensures Standing(Used(managed, after, limit, cardCount), id, card) <==>
      Standing(Used(managed, enis, limit, cardCount), id, card) || Standing(made, id, card)
  {
    var p, conv := PlanFor(managed, enis, limit, cardCount).value, Conversion(managed, enis, limit, cardCount);
    var used, used' := Used(managed, enis, limit, cardCount), Used(managed, after, limit, cardCount);
    if Standing(used', id, card) {
      var e :| e in used' && e.id == id && CardIndex(e) == card;
      UsedAgain(managed, enis, limit, cardCount, made, after, e);
      if e !in made && e !in FirstPerCard(managed, enis, {}) {
        var z :| z in conv && e == ConvertOne(p, z);
        assert z in used && z.id == id && CardIndex(z) == card;
      } else {
        assert e in made || e in used;
      }
    }
    if Standing(used, id, card) || Standing(made, id, card) {
      PlaceStays(managed, enis, limit, cardCount, made, after, id, card);
    }
  }

  lemma PlaceStays(managed: bool, enis: seq<Eni>, limit: int, cardCount: int, made: seq<Eni>, after: seq<Eni>,
                   id: EniId, card: int)
    requires Carried(managed, enis, limit, cardCount, made, after)
    requires PlanFor(managed, enis, limit, cardCount).value.share > 0
    requires
      || !Unowned(managed, Conversion(managed, enis, limit, cardCount))
      || Leftover(managed, enis, limit, cardCount) > 0
    requires Standing(Used(managed, enis, limit, cardCount), id, card) || Standing(made, id, card)
    ensures Standing(Used(managed, after, limit, cardCount), id, card)
  {
    var used, used' := Used(managed, enis, limit, cardCount), Used(managed, after, limit, cardCount);
    if e :| e in made && e.id == id && CardIndex(e) == card {
      UsedAgain(managed, enis, limit, cardCount, made, after, e);
      assert e in used';
    } else {
      var e :| e in used && e.id == id && CardIndex(e) == card;
      var p := PlanFor(managed, enis, limit, cardCount).value;
      var f := if e in FirstPerCard(managed, enis, {}) then e else ConvertOne(p, e);
      UsedAgain(managed, enis, limit, cardCount, made, after, f);
      assert f in used' && f.id == id && CardIndex(f) == card;
    }
  }

  lemma SameWhenServed(managed: bool, enis: seq<Eni>, limit: int, cardCount: int, made: seq<Eni>, after: seq<Eni>)
    requires Carried(managed, enis, limit, cardCount, made, after)
    requires PlanFor(managed, enis, limit, cardCount).value.share > 0
    requires
      || !Unowned(managed, Conversion(managed, enis, limit, cardCount))
      || Leftover(managed, enis, limit, cardCount) > 0
    ensures SameAgain(PlanFor(managed, enis, limit, cardCount).value, made, PlanFor(managed, after, limit, cardCount))
  {
    var p := PlanFor(managed, enis, limit, cardCount).value;
    var used, used' := Used(managed, enis, limit, cardCount), Used(managed, after, limit, cardCount);
    PlanFailsIff(managed, enis, limit, cardCount);
    assert p.eris == ToEris(used, p.share) && used[0] in used;
    PlaceAgain(managed, enis, limit, cardCount, made, after, used[0].id, CardIndex(used[0]));
    SecondPlan(managed, enis, limit, cardCount, made, after);
    var again := PlanFor(managed, after, limit, cardCount);
    assert used' != [];
    assert again.Ok? && again.value.eris == ToEris(used', again.value.share);
    forall id, card
      ensures Sits(again.value.eris, id, card) <==> Sits(p.eris, id, card) || Standing(made, id, card)
    {
      SitsIffUsed(used', again.value.share, id, card);
      SitsIffUsed(used, p.share, id, card);
      PlaceAgain(managed, enis, limit, cardCount, made, after, id, card);
    }
  }

  lemma LostOtherwise(managed: bool, enis: seq<Eni>, limit: int, cardCount: int, made: seq<Eni>, after: seq<Eni>)
    requires Carried(managed, enis, limit, cardCount, made, after)
    requires PlanFor(managed, enis, limit, cardCount).value.share > 0
    requires Unowned(managed, Conversion(managed, enis, limit, cardCount))
    requires Leftover(managed, enis, limit, cardCount) == 0
    ensures !SameAgain(PlanFor(managed, enis, limit, cardCount).value, made, PlanFor(managed, after, limit, cardCount))
  {
    var p, conv := PlanFor(managed, enis, limit, cardCount).value, Conversion(managed, enis, limit, cardCount);
    var again := PlanFor(managed, after, limit, cardCount);
    var z :| z in conv && !Owns(managed, z);
    ConversionIsPlanned(managed, enis, limit, cardCount, z);
    SecondPlan(managed, enis, limit, cardCount, made, after);
    MissingAgain(managed, enis, limit, cardCount, made, after);
    if again.Ok? {
      var chosen' := FirstPerCard(managed, after, {});
      assert chosen' + [] == chosen';
      SitsIffUsed(chosen', 0, z.id, 0);
      assert z in Used(managed, enis, limit, cardCount);
      SitsIffUsed(Used(managed, enis, limit, cardCount), p.share, z.id, 0);
      assert Sits(p.eris, z.id, 0) && !Sits(again.value.eris, z.id, 0);
    }
  }

  /** When planning again after carrying the plan out selects the same interfaces on the same cards (those kept or
      converted, and those made) and creates nothing: exactly when the primary was not put to use, or is owned, or
      equal shares left queue pairs over. A converted primary does not get the creator tag, so without
      managed-non-owned the next plan has to convert it again, and can do so only with queue pairs left. */
  lemma ReplanExactly(managed: bool, enis: seq<Eni>, limit: int, cardCount: int, made: seq<Eni>, after: seq<Eni>)
    requires Carried(managed, enis, limit, cardCount, made, after)
    ensures SameAgain(PlanFor(managed, enis, limit, cardCount).value, made,
                      PlanFor(managed, after, limit, cardCount)) <==>
      !Unowned(managed, Conversion(managed, enis, limit, cardCount)) || Leftover(managed, enis, limit, cardCount) > 0
  {
    PlanParts(managed, enis, limit, cardCount);
    NoShareNoChange(managed, enis, limit, cardCount, made, after);
    if PlanFor(managed, enis, limit, cardCount).value.share > 0 {
      LeftoverIs(managed, enis, limit, cardCount, made, after);
      var unowned := Unowned(managed, Conversion(managed, enis, limit, cardCount));
      if !unowned || Leftover(managed, enis, limit, cardCount) > 0 {
        SameWhenServed(managed, enis, limit, cardCount, made, after);
      } else {
        LostOtherwise(managed, enis, limit, cardCount, made, after);
      }
    }
  }

  /** With every RDMA interface managed, planning again is always a fixed point. */
  lemma ReplanFixedPoint(enis: seq<Eni>, limit: int, cardCount: int, made: seq<Eni>, after: seq<Eni>)
    requires Carried(true, enis, limit, cardCount, made, after)
    ensures SameAgain(PlanFor(true, enis, limit, cardCount).value, made, PlanFor(true, after, limit, cardCount))
  {
    ReplanExactly(true, enis, limit, cardCount, made, after);
  }

  /** Without it, it can fail outright: one primary takes all ten queue pairs, and the next plan finds nothing. */
  lemma ReplanLosesPrimary(e: Eni)
    requires e.isPrimary && !IsRdma(e) && !HasCreatorTag(e) && e.queuePairs == None && e.card == None
    ensures
      var first := PlanFor(false, [e], 10, 1);
      && first == Ok(Plan([ToEri(e, 10)], [], 10))
      && Carried(false, [e], 10, 1, [], [ConvertOne(first.value, e)])
      && PlanFor(false, [ConvertOne(first.value, e)], 10, 1) == Err(NoAvailableSlot)
  {
    AllForPrimary(e);
    LoneCarried(Plan([ToEri(e, 10)], [], 10), e);
    NothingLeft(ConvertOne(Plan([ToEri(e, 10)], [], 10), e));
    LoneListing(e);
    LoneListing(ConvertOne(Plan([ToEri(e, 10)], [], 10), e));
  }

  lemma LoneListing(e: Eni)
    requires e.isPrimary && e.card == None && !HasCreatorTag(e)
    requires if IsRdma(e) then e.queuePairs == Some(10) else e.queuePairs == None
    ensures InstanceListing([e])
  {
    UnownedAlone(e);
    assert forall x :: x in [e] ==> x == e;
  }

  lemma LoneCarried(p: Plan, e: Eni)
    requires p == Plan([ToEri(e, 10)], [], 10) && e.isPrimary && !IsRdma(e) && !HasCreatorTag(e) && e.queuePairs == None
    ensures
      var f := ConvertOne(p, e);
      && f == e.(mode := HighPerformance, queuePairs := Some(10))
      && CarriedOut(p, [e], [], [f])
  {
    assert p.eris[0].id == e.id;
    var f := ConvertOne(p, e);
    assert Convert(p, [e]) == [f] by {
      assert [e][1..] == [];
    }
    WithoutNothing([f]);
    FilterParts([f], {});
    var made: seq<Eni> := [];
    assert Ids(made) == {};
  }

  lemma NothingLeft(f: Eni)
    requires f.isPrimary && IsRdma(f) && !HasCreatorTag(f) && f.queuePairs == Some(10)
    ensures PlanFor(false, [f], 10, 1) == Err(NoAvailableSlot)
  {
    UnownedAlone(f);
    OneCardMissing();
    assert Cards(FirstPerCard(false, [f], {})) == {};
    assert Share(false, [f], 10, 1) == 0;
  }

  lemma AllForPrimary(e: Eni)
    requires e.isPrimary && !IsRdma(e) && !HasCreatorTag(e)
    ensures PlanFor(false, [e], 10, 1) == Ok(Plan([ToEri(e, 10)], [], 10))
  {
    UnownedAlone(e);
    OneCardMissing();
    assert Cards(FirstPerCard(false, [e], {})) == {};
    assert MissingCards(false, [e], 10, 1) == [0] && Share(false, [e], 10, 1) == 10;
    assert Conversion(false, [e], 10, 1) == [e];
    assert [] + [e] == [e] && ToEris([e], 10) == [ToEri(e, 10)];
  }

  lemma UnownedAlone(e: Eni)
    requires e.isPrimary && !HasCreatorTag(e)
    ensures FirstPerCard(false, [e], {}) == [] && QueuePairTotal([e]) == QueuePairs(e) && Primaries([e]) == [e]
  {
    assert [e][1..] == [] && [e][0] == e;
  }

  lemma OneCardMissing()
    ensures Missing({}, 0, 1) == [0] && Missing({}, 1, 1) == []
  {
  }
}
