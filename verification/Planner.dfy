/** SelectEriFromExist: which existing interfaces serve RDMA, which network cards still need one, and how many
    queue pairs each new one gets. The method follows the Go loops; PlanFor is the specification it is proved
    against, and the lemmas below are about PlanFor. */
module Planner {
  import opened Prelude
  import opened EniTypes

  datatype PlanError = NoPrimaryOrExisting | NoAvailableSlot

  datatype Plan = Plan(eris: seq<Eri>, create: seq<int>, share: int)

  // ---------- The specification ----------

  function Rdma(enis: seq<Eni>): seq<Eni> {
    if enis == [] then [] else (if IsRdma(enis[0]) then [enis[0]] else []) + Rdma(enis[1..])
  }

  function Primaries(enis: seq<Eni>): seq<Eni> {
    if enis == [] then [] else (if enis[0].isPrimary then [enis[0]] else []) + Primaries(enis[1..])
  }

  function QueuePairs(e: Eni): int {
    if IsRdma(e) then e.queuePairs.GetOr(0) else 0
  }

  function QueuePairTotal(enis: seq<Eni>): int {
    if enis == [] then 0 else QueuePairs(enis[0]) + QueuePairTotal(enis[1..])
  }

  predicate Eligible(managed: bool, e: Eni) {
    IsRdma(e) && Owns(managed, e)
  }

  /** The first eligible interface of every card not in `taken`, in listing order. */
  function FirstPerCard(managed: bool, enis: seq<Eni>, taken: set<int>): seq<Eni> {
    if enis == [] then []
    else if Eligible(managed, enis[0]) && CardIndex(enis[0]) !in taken then
      [enis[0]] + FirstPerCard(managed, enis[1..], taken + {CardIndex(enis[0])})
    else FirstPerCard(managed, enis[1..], taken)
  }

  function Cards(enis: seq<Eni>): set<int> {
    set e <- enis :: CardIndex(e)
  }

  /** The cards from `from` up to `cardCount` that are not taken, in increasing order. */
  function Missing(taken: set<int>, from: int, cardCount: int): seq<int>
    decreases cardCount - from
  {
    if from >= cardCount then []
    else (if from in taken then [] else [from]) + Missing(taken, from + 1, cardCount)
  }

  function ToEris(enis: seq<Eni>, preferred: int): (eris: seq<Eri>)
    ensures |eris| == |enis|
    ensures forall k :: 0 <= k < |enis| ==> eris[k] == ToEri(enis[k], preferred)
  {
    seq(|enis|, k requires 0 <= k < |enis| => ToEri(enis[k], preferred))
  }

  function MissingCards(managed: bool, enis: seq<Eni>, limit: int, cardCount: int): seq<int> {
    if QueuePairTotal(enis) <= limit then Missing(Cards(FirstPerCard(managed, enis, {})), 0, cardCount) else []
  }

  function Share(managed: bool, enis: seq<Eni>, limit: int, cardCount: int): int {
    var missing := MissingCards(managed, enis, limit, cardCount);
    if missing == [] then 0 else (limit - QueuePairTotal(enis)) / |missing|
  }

  /** The primary interface is put to use when card 0 has nothing and there are queue pairs to hand out. */
  function Conversion(managed: bool, enis: seq<Eni>, limit: int, cardCount: int): seq<Eni> {
    if Share(managed, enis, limit, cardCount) > 0 && 0 !in Cards(FirstPerCard(managed, enis, {})) then Primaries(enis)
    else []
  }

  function PlanFor(managed: bool, enis: seq<Eni>, limit: int, cardCount: int): Result<Plan, PlanError> {
    var share := Share(managed, enis, limit, cardCount);
    var chosen := FirstPerCard(managed, enis, {}) + Conversion(managed, enis, limit, cardCount);
    if chosen == [] then Err(if share > 0 then NoPrimaryOrExisting else NoAvailableSlot)
    else if share <= 0 then Ok(Plan(ToEris(chosen, share), [], share))
    else
      var from := if Conversion(managed, enis, limit, cardCount) != [] then 1 else 0;
      Ok(Plan(ToEris(chosen, share), Missing(Cards(FirstPerCard(managed, enis, {})), from, cardCount), share))
  }

  // ---------- What is demanded of a listing ----------

  /** Without a queue-pair number on an RDMA interface, or with two primaries to convert, the Go code panics. */
  predicate Listable(managed: bool, enis: seq<Eni>, limit: int, cardCount: int) {
    && (forall e <- enis :: IsRdma(e) ==> e.queuePairs.Some?)
    && |Conversion(managed, enis, limit, cardCount)| <= 1
  }

  /** What the cloud guarantees of the interfaces of one instance. */
  predicate InstanceListing(enis: seq<Eni>) {
    && (forall e <- enis :: if IsRdma(e) then e.queuePairs.GetOr(0) > 0 else e.queuePairs.GetOr(0) <= 0)
    && |Primaries(enis)| <= 1
    && (forall e <- enis :: e.isPrimary ==> CardIndex(e) == 0)
    && (forall i, j :: 0 <= i < j < |enis| ==> enis[i].id != enis[j].id)
  }

  // ---------- The Go loops ----------

  function IndexOf(xs: seq<int>, x: int): (i: int)
    ensures -1 <= i < |xs|
    ensures i >= 0 ==> xs[i] == x
    ensures x in xs ==> i >= 0
  {
    if xs == [] then -1
    else if xs[0] == x then 0
    else var i := IndexOf(xs[1..], x); if i < 0 then -1 else i + 1
  }

  method FilterRdma(existENIs: seq<Eni>) returns (existERIs: seq<Eni>, existQueuePairCount: int)
    requires forall e <- existENIs :: IsRdma(e) ==> e.queuePairs.Some?
    ensures existERIs == Rdma(existENIs) && existQueuePairCount == QueuePairTotal(existENIs)
  {
    existQueuePairCount, existERIs := 0, [];
    for i := 0 to |existENIs|
      invariant existQueuePairCount + QueuePairTotal(existENIs[i..]) == QueuePairTotal(existENIs)
      invariant existERIs + Rdma(existENIs[i..]) == Rdma(existENIs)
    {
      if IsRdma(existENIs[i]) {
        existQueuePairCount := existQueuePairCount + existENIs[i].queuePairs.value;
        existERIs := existERIs + [existENIs[i]];
      }
    }
  }

  /** The choice made from the first i interfaces, continued over the others, is the whole choice. */
  ghost predicate ChosenSoFar(managed: bool, enis: seq<Eni>, i: nat, selected: seq<Eni>, taken: set<int>)
    requires i <= |enis|
  {
    && taken == Cards(selected)
    && selected + FirstPerCard(managed, enis[i..], taken) == FirstPerCard(managed, enis, {})
  }

  lemma ChooseNext(managed: bool, enis: seq<Eni>, i: nat, selected: seq<Eni>, taken: set<int>)
    requires i < |enis| && ChosenSoFar(managed, enis, i, selected, taken)
    ensures
      if Eligible(managed, enis[i]) && CardIndex(enis[i]) !in taken
      then ChosenSoFar(managed, enis, i + 1, selected + [enis[i]], taken + {CardIndex(enis[i])})
      else ChosenSoFar(managed, enis, i + 1, selected, taken)
  {
    CardsSnoc(selected, enis[i]);
    assert enis[i..][1..] == enis[i + 1..];
  }

  method KeepFirstOwned(managed: bool, existERIs: seq<Eni>)
    returns (selectedENIs: seq<Eni>, cardIndexENI: map<int, Eri>)
    requires forall e <- existERIs :: IsRdma(e)
    ensures selectedENIs == FirstPerCard(managed, existERIs, {}) && cardIndexENI.Keys == Cards(selectedENIs)
  {
    selectedENIs, cardIndexENI := [], map[];
    assert existERIs[0..] == existERIs && cardIndexENI.Keys == {};
    for i := 0 to |existERIs|
      invariant ChosenSoFar(managed, existERIs, i, selectedENIs, cardIndexENI.Keys)
    {
      var eri := existERIs[i];
      ChooseNext(managed, existERIs, i, selectedENIs, cardIndexENI.Keys);
      if Owns(managed, eri) {
        var eniIndex := CardIndex(eri);
        if eniIndex !in cardIndexENI {
          assert cardIndexENI[eniIndex := ToEri(eri, 0)].Keys == cardIndexENI.Keys + {eniIndex};
          cardIndexENI := cardIndexENI[eniIndex := ToEri(eri, 0)];
          selectedENIs := selectedENIs + [eri];
        }
      }
    }
  }

  lemma MissingStep(before: seq<int>, taken: set<int>, i: int, cardCount: int)
    requires i < cardCount
    ensures
      before + Missing(taken, i, cardCount) ==
      (if i in taken then before else before + [i]) + Missing(taken, i + 1, cardCount)
  {}

  method FindMissing(cardIndexENI: map<int, Eri>, cardCount: int) returns (needCreateOrConvert: seq<int>)
    ensures needCreateOrConvert == Missing(cardIndexENI.Keys, 0, cardCount)
  {
    needCreateOrConvert := [];
    ghost var taken := cardIndexENI.Keys;
    var i := 0;
    while i < cardCount
      invariant needCreateOrConvert + Missing(taken, i, cardCount) == Missing(taken, 0, cardCount)
    {
      MissingStep(needCreateOrConvert, taken, i, cardCount);
      if i !in cardIndexENI {
        needCreateOrConvert := needCreateOrConvert + [i];
      }
      i := i + 1;
    }
  }

  /** The loop over all interfaces that gives card 0 to the primary and takes 0 out of the create list in place. */
  method UsePrimary(existENIs: seq<Eni>, need: seq<int>, selected: seq<Eni>, cardIndexENI: map<int, Eri>, share: int)
    returns (need': seq<int>, selected': seq<Eni>, cardIndexENI': map<int, Eri>)
    requires |Primaries(existENIs)| <= 1
    requires need != [] && need[0] == 0
    ensures selected' == selected + Primaries(existENIs)
    ensures need' == if Primaries(existENIs) == [] then need else need[1..]
    ensures cardIndexENI'.Keys == cardIndexENI.Keys + if Primaries(existENIs) == [] then {} else {0}
  {
    need', selected', cardIndexENI' := need, selected, cardIndexENI;
    ghost var done: seq<Eni> := [];
    for i := 0 to |existENIs|
      invariant done + Primaries(existENIs[i..]) == Primaries(existENIs)
      invariant selected' == selected + done
      invariant need' == if done == [] then need else need[1..]
      invariant cardIndexENI'.Keys == cardIndexENI.Keys + if done == [] then {} else {0}
    {
      var eni := existENIs[i];
      if eni.isPrimary {
        assert done == [];
        selected' := selected' + [eni];
        cardIndexENI' := cardIndexENI'[0 := ToEri(eni, share)];
        var cardIndex0Idx := IndexOf(need', 0);
        need' := need'[..cardIndex0Idx] + need'[cardIndex0Idx + 1..];
        done := done + [eni];
      }
    }
  }

  /** What serves RDMA already, and which cards lack it, unless the queue pairs are overdrawn. */
  method Survey(managed: bool, existENIs: seq<Eni>, queuePairCount: int, cardCount: int)
    returns (selectedENIs: seq<Eni>, cardIndexENI: map<int, Eri>, existQueuePairCount: int, missing: seq<int>)
    requires forall e <- existENIs :: IsRdma(e) ==> e.queuePairs.Some?
    ensures selectedENIs == FirstPerCard(managed, existENIs, {}) && cardIndexENI.Keys == Cards(selectedENIs)
    ensures existQueuePairCount == QueuePairTotal(existENIs)
    ensures missing == MissingCards(managed, existENIs, queuePairCount, cardCount)
  {
    var existERIs;
    existERIs, existQueuePairCount := FilterRdma(existENIs);
    RdmaElements(existENIs);
    RdmaKeepsFirst(managed, existENIs, {});
    selectedENIs, cardIndexENI := KeepFirstOwned(managed, existERIs);
    missing := [];
    if existQueuePairCount <= queuePairCount {
      missing := FindMissing(cardIndexENI, cardCount);
    }
  }

  /** Share out what is spare over the missing cards: convert the primary for card 0, or drop the cards. */
  method HandOut(existENIs: seq<Eni>, spare: int, need: seq<int>, selected: seq<Eni>, cardIndexENI: map<int, Eri>)
    returns (need': seq<int>, selected': seq<Eni>, cardIndexENI': map<int, Eri>, remain: int)
    requires need != [] && 0 !in cardIndexENI ==> need[0] == 0 && (spare / |need| > 0 ==> |Primaries(existENIs)| <= 1)
    ensures remain == if need == [] then 0 else spare / |need|
    ensures
      var used := if remain > 0 && 0 !in cardIndexENI then Primaries(existENIs) else [];
      && selected' == selected + used
      && cardIndexENI'.Keys == cardIndexENI.Keys + (if used == [] then {} else {0})
      && need' == if remain <= 0 then [] else if used == [] then need else need[1..]
  {
    need', selected', cardIndexENI', remain := need, selected, cardIndexENI, 0;
    if |need| > 0 {
      remain := spare / |need|;
      if remain > 0 {
        if 0 !in cardIndexENI {
          need', selected', cardIndexENI' := UsePrimary(existENIs, need, selected, cardIndexENI, remain);
        }
      } else {
        need' := [];
      }
    }
  }

  method SelectEriFromExist(managed: bool, existENIs: seq<Eni>, queuePairCount: int, cardCount: int)
    returns (r: Result<Plan, PlanError>)
    requires Listable(managed, existENIs, queuePairCount, cardCount)
    ensures r == PlanFor(managed, existENIs, queuePairCount, cardCount)
  {
    var selectedENIs, cardIndexENI, existQueuePairCount, needCreateOrConvert :=
      Survey(managed, existENIs, queuePairCount, cardCount);
    ghost var chosen, missing := selectedENIs, needCreateOrConvert;
    ZeroFirst(Cards(chosen), cardCount);
    var remain;
    needCreateOrConvert, selectedENIs, cardIndexENI, remain :=
      HandOut(existENIs, queuePairCount - existQueuePairCount, needCreateOrConvert, selectedENIs, cardIndexENI);
    FinalPlan(managed, existENIs, queuePairCount, cardCount, chosen, missing, remain);
    CardsEmpty(chosen);
    if remain > 0 && |cardIndexENI| == 0 {
      return Err(NoPrimaryOrExisting);
    }

    var eriList := ToEris(selectedENIs, remain);
    if |eriList| == 0 && |needCreateOrConvert| == 0 {
      return Err(NoAvailableSlot);
    }
    return Ok(Plan(eriList, needCreateOrConvert, remain));
  }

  lemma FinalPlan(managed: bool, enis: seq<Eni>, limit: int, cardCount: int, chosen: seq<Eni>, missing: seq<int>,
                  remain: int)
    requires chosen == FirstPerCard(managed, enis, {}) && missing == MissingCards(managed, enis, limit, cardCount)
    requires remain == if missing == [] then 0 else (limit - QueuePairTotal(enis)) / |missing|
    ensures
      var used := if remain > 0 && 0 !in Cards(chosen) then Primaries(enis) else [];
      var need := if remain <= 0 then [] else if used == [] then missing else missing[1..];
      PlanFor(managed, enis, limit, cardCount) ==
      if chosen + used != [] then Ok(Plan(ToEris(chosen + used, remain), need, remain))
      else Err(if remain > 0 then NoPrimaryOrExisting else NoAvailableSlot)
  {
    ZeroFirst(Cards(chosen), cardCount);
  }

  lemma CardsCons(e: Eni, enis: seq<Eni>)
    ensures Cards([e] + enis) == {CardIndex(e)} + Cards(enis)
  {
    assert forall x :: x in [e] + enis <==> x == e || x in enis;
  }

  lemma CardsSnoc(enis: seq<Eni>, e: Eni)
    ensures Cards(enis + [e]) == Cards(enis) + {CardIndex(e)}
  {
    assert forall x :: x in enis + [e] <==> x in enis || x == e;
  }

  lemma CardsEmpty(enis: seq<Eni>)
    ensures Cards(enis) == {} <==> enis == []
  {
    if enis != [] {
      assert CardIndex(enis[0]) in Cards(enis);
    }
  }

  lemma RdmaElements(enis: seq<Eni>)
    ensures forall e <- Rdma(enis) :: IsRdma(e)
  {}

  lemma {:induction false} RdmaKeepsFirst(managed: bool, enis: seq<Eni>, taken: set<int>)
    ensures FirstPerCard(managed, Rdma(enis), taken) == FirstPerCard(managed, enis, taken)
  {
    if enis != [] {
      RdmaKeepsFirst(managed, enis[1..], taken);
      RdmaKeepsFirst(managed, enis[1..], taken + {CardIndex(enis[0])});
      if IsRdma(enis[0]) {
        assert Rdma(enis) == [enis[0]] + Rdma(enis[1..]);
      } else {
        assert Rdma(enis) == Rdma(enis[1..]);
      }
    }
  }

  lemma ZeroFirst(taken: set<int>, cardCount: int)
    ensures 0 !in taken && Missing(taken, 0, cardCount) != [] ==>
              && Missing(taken, 0, cardCount)[0] == 0
              && Missing(taken, 0, cardCount)[1..] == Missing(taken, 1, cardCount)
  {}

  // ---------- What the pieces of the specification mean ----------

  lemma {:induction false} PrimariesAre(enis: seq<Eni>)
    ensures forall e :: e in Primaries(enis) <==> e in enis && e.isPrimary
  {
    if enis != [] {
      PrimariesAre(enis[1..]);
    }
  }

  lemma {:induction false} MissingAre(taken: set<int>, from: int, cardCount: int)
    ensures forall c :: c in Missing(taken, from, cardCount) <==> from <= c < cardCount && c !in taken
    ensures forall i, j :: 0 <= i < j < |Missing(taken, from, cardCount)| ==>
      Missing(taken, from, cardCount)[i] < Missing(taken, from, cardCount)[j]
    decreases cardCount - from
  {
    if from < cardCount {
      MissingAre(taken, from + 1, cardCount);
      var rest := Missing(taken, from + 1, cardCount);
      assert forall k :: 0 <= k < |rest| ==> rest[k] in rest;
    }
  }

  /** One interface per card: eligible, on a free card, each card once, and no eligible card left out. */
  lemma {:induction false} FirstPerCardPicks(managed: bool, enis: seq<Eni>, taken: set<int>)
    ensures var chosen := FirstPerCard(managed, enis, taken);
      && (forall e :: e in chosen ==> e in enis && Eligible(managed, e) && CardIndex(e) !in taken)
      && (forall i, j :: 0 <= i < j < |chosen| ==> CardIndex(chosen[i]) != CardIndex(chosen[j]))
      && (forall e :: e in enis && Eligible(managed, e) ==> CardIndex(e) in taken + Cards(chosen))
  {
    if enis != [] {
      var e := enis[0];
      if Eligible(managed, e) && CardIndex(e) !in taken {
        FirstPerCardPicks(managed, enis[1..], taken + {CardIndex(e)});
        CardsCons(e, FirstPerCard(managed, enis[1..], taken + {CardIndex(e)}));
      } else {
        FirstPerCardPicks(managed, enis[1..], taken);
      }
    }
  }
}
