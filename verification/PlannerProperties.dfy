/** What a plan promises: when it fails, which interface it takes, and how it partitions the cards. */
module PlannerProperties {
  import opened Prelude
  import opened EniTypes
  import opened Planner

  // ---------- Small facts used below ----------

  lemma LargestShare(budget: int, n: int, s: int)
    requires 0 < n
    ensures n * s <= budget <==> s <= budget / n
  {
    var q := budget / n;
    assert n * q <= budget < n * (q + 1);
    if s <= q {
      assert n * s <= n * q;
    } else {
      assert n * s >= n * (q + 1);
    }
  }

  /** The facts about a plan's parts that every lemma here starts from. */
  lemma PlanParts(managed: bool, enis: seq<Eni>, limit: int, cardCount: int)
    ensures
      var used := QueuePairTotal(enis);
      var missing := MissingCards(managed, enis, limit, cardCount);
      var share := Share(managed, enis, limit, cardCount);
      && share >= 0 && (share > 0 ==> missing != []) && (missing != [] ==> used + |missing| * share <= limit)
      && (used > limit ==> missing == [])
  {
    var missing := MissingCards(managed, enis, limit, cardCount);
    if missing != [] {
      LargestShare(limit - QueuePairTotal(enis), |missing|, 0);
      LargestShare(limit - QueuePairTotal(enis), |missing|, Share(managed, enis, limit, cardCount));
    }
  }

  lemma ConversionParts(managed: bool, enis: seq<Eni>, limit: int, cardCount: int)
    requires |Primaries(enis)| <= 1
    ensures
      var chosen := FirstPerCard(managed, enis, {});
      var missing := MissingCards(managed, enis, limit, cardCount);
      var conv := Conversion(managed, enis, limit, cardCount);
      && |conv| <= 1
      && (forall e :: e in conv ==> e in enis && e.isPrimary)
      && (conv != [] ==> Share(managed, enis, limit, cardCount) > 0 && 0 !in Cards(chosen)
                         && |Missing(Cards(chosen), 1, cardCount)| == |missing| - 1)
  {
    PrimariesAre(enis);
    PlanParts(managed, enis, limit, cardCount);
    ZeroFirst(Cards(FirstPerCard(managed, enis, {})), cardCount);
  }

  // ---------- What is counted and what an entry says ----------

  /** The RDMA interfaces are those in HighPerformance mode, in listing order. */
  lemma {:induction false} RdmaMeans(enis: seq<Eni>, e: Eni)
    ensures e in Rdma(enis) <==> e in enis && e.mode == HighPerformance
  {
    if enis != [] {
      RdmaMeans(enis[1..], e);
      assert e in enis <==> e == enis[0] || e in enis[1..];
    }
  }

  lemma {:induction false} RdmaJoins(a: seq<Eni>, b: seq<Eni>)
    ensures Rdma(a + b) == Rdma(a) + Rdma(b)
  {
    if a == [] {
      assert a + b == b;
    } else {
      RdmaJoins(a[1..], b);
      assert (a + b)[1..] == a[1..] + b;
      var head := if a[0].mode == HighPerformance then [a[0]] else [];
      assert head + (Rdma(a[1..]) + Rdma(b)) == head + Rdma(a[1..]) + Rdma(b);
    }
  }

  /** Only RDMA interfaces count, each with the queue-pair number it reports. */
  lemma {:induction false} TotalMeans(enis: seq<Eni>, e: Eni)
    ensures QueuePairTotal(enis + [e]) ==
      if e.mode == HighPerformance then QueuePairTotal(enis) + e.queuePairs.GetOr(0) else QueuePairTotal(enis)
  {
    if enis == [] {
      assert enis + [e] == [e];
      assert QueuePairTotal([e][1..]) == 0;
    } else {
      TotalMeans(enis[1..], e);
      assert (enis + [e])[1..] == enis[1..] + [e];
    }
  }

  /** Each entry of a plan names an interface of the listing with its own kind, MAC, instance and card, and with its own
      queue-pair number or, where it reports none, the share. */
  lemma EntriesDescribe(managed: bool, enis: seq<Eni>, limit: int, cardCount: int, k: nat)
    requires PlanFor(managed, enis, limit, cardCount).Ok?
    requires k < |PlanFor(managed, enis, limit, cardCount).value.eris|
    ensures
      var p := PlanFor(managed, enis, limit, cardCount).value;
      var eri := p.eris[k];
      exists x :: x in enis
        && eri.id == x.id && eri.isPrimary == x.isPrimary && eri.mac == x.mac
        && eri.instance == (if x.instance.Some? then x.instance.value else "")
        && eri.card == (if x.card.Some? then x.card.value else 0)
        && eri.queuePair == (if x.queuePairs.Some? && x.queuePairs.value > 0 then x.queuePairs.value else p.share)
  {
    var p := PlanFor(managed, enis, limit, cardCount).value;
    var used := FirstPerCard(managed, enis, {}) + Conversion(managed, enis, limit, cardCount);
    FirstPerCardPicks(managed, enis, {});
    PrimariesAre(enis);
    assert used[k] in used && p.eris[k] == ToEri(used[k], p.share);
  }

  // ---------- When planning fails ----------

  ghost predicate SomeEligible(managed: bool, enis: seq<Eni>) {
    exists e :: e in enis && Eligible(managed, e)
  }

  lemma ChosenIffEligible(managed: bool, enis: seq<Eni>)
    ensures FirstPerCard(managed, enis, {}) == [] <==> !SomeEligible(managed, enis)
  {
    FirstPerCardPicks(managed, enis, {});
    CardsEmpty(FirstPerCard(managed, enis, {}));
    var chosen := FirstPerCard(managed, enis, {});
    if chosen != [] {
      assert chosen[0] in chosen;
    }
  }

  /** Planning fails exactly when no owned RDMA interface exists and there is no primary to convert with a
      positive share, the share deciding which error it is; otherwise it uses at least one interface. */
  lemma PlanFailsIff(managed: bool, enis: seq<Eni>, limit: int, cardCount: int)
    ensures PlanFor(managed, enis, limit, cardCount).Err? <==>
      && !SomeEligible(managed, enis)
      && (Share(managed, enis, limit, cardCount) > 0 ==> forall e :: e in enis ==> !e.isPrimary)
    ensures PlanFor(managed, enis, limit, cardCount) == Err(NoPrimaryOrExisting) <==>
      && !SomeEligible(managed, enis)
      && Share(managed, enis, limit, cardCount) > 0 && forall e :: e in enis ==> !e.isPrimary
    ensures PlanFor(managed, enis, limit, cardCount).Ok? ==> PlanFor(managed, enis, limit, cardCount).value.eris != []
  {
    ChosenIffEligible(managed, enis);
    PrimariesAre(enis);
    var ps := Primaries(enis);
    if ps != [] {
      assert ps[0] in ps;
    }
  }

  // ---------- Which interface serves a card ----------

  ghost predicate FirstOnItsCard(managed: bool, enis: seq<Eni>, i: int)
    requires 0 <= i < |enis|
  {
    && Eligible(managed, enis[i])
    && forall j :: 0 <= j < i ==> !(Eligible(managed, enis[j]) && CardIndex(enis[j]) == CardIndex(enis[i]))
  }

  /** The kept interfaces are exactly the first eligible one of each card, in the listing's order. */
  lemma {:induction false} KeptAreFirst(managed: bool, enis: seq<Eni>, taken: set<int>)
    ensures forall e :: e in FirstPerCard(managed, enis, taken) <==>
      exists i :: 0 <= i < |enis| && enis[i] == e && FirstOnItsCard(managed, enis, i) && CardIndex(e) !in taken
  {
    if enis != [] {
      var head, tail := enis[0], enis[1..];
      var keep := Eligible(managed, head) && CardIndex(head) !in taken;
      var taken' := if keep then taken + {CardIndex(head)} else taken;
      KeptAreFirst(managed, tail, taken');
      forall e
        ensures e in FirstPerCard(managed, enis, taken) <==>
          exists i :: 0 <= i < |enis| && enis[i] == e && FirstOnItsCard(managed, enis, i) && CardIndex(e) !in taken
      {
        if keep && e == head {
          assert FirstOnItsCard(managed, enis, 0);
        }
        if e in FirstPerCard(managed, tail, taken') {
          var i :| 0 <= i < |tail| && tail[i] == e && FirstOnItsCard(managed, tail, i) && CardIndex(e) !in taken';
          assert enis[i + 1] == e && FirstOnItsCard(managed, enis, i + 1);
        }
        if i :| 0 <= i < |enis| && enis[i] == e && FirstOnItsCard(managed, enis, i) && CardIndex(e) !in taken {
          if i > 0 {
            assert FirstOnItsCard(managed, tail, i - 1) by {
              assert forall j :: 0 <= j < i - 1 ==> tail[j] == enis[j + 1];
            }
            assert tail[i - 1] == e;
          }
        }
      }
    }
  }

  // ---------- The card partition ----------

  ghost predicate OnCard(eris: seq<Eri>, c: int) {
    exists k :: 0 <= k < |eris| && eris[k].card == c
  }

  ghost predicate CardOwned(managed: bool, enis: seq<Eni>, c: int) {
    exists e :: e in enis && Eligible(managed, e) && CardIndex(e) == c
  }

  ghost function Used(managed: bool, enis: seq<Eni>, limit: int, cardCount: int): seq<Eni> {
    FirstPerCard(managed, enis, {}) + Conversion(managed, enis, limit, cardCount)
  }

  lemma UsedOncePerCard(managed: bool, enis: seq<Eni>, limit: int, cardCount: int)
    requires InstanceListing(enis)
    ensures var used := Used(managed, enis, limit, cardCount);
      && (forall k :: 0 <= k < |used| ==> used[k] in enis)
      && (forall i, j :: 0 <= i < j < |used| ==> CardIndex(used[i]) != CardIndex(used[j]) && used[i].id != used[j].id)
  {
    var chosen := FirstPerCard(managed, enis, {});
    var used := Used(managed, enis, limit, cardCount);
    FirstPerCardPicks(managed, enis, {});
    ConversionParts(managed, enis, limit, cardCount);
    assert forall k :: 0 <= k < |used| ==> used[k] in used;
    forall i, j | 0 <= i < j < |used|
      ensures CardIndex(used[i]) != CardIndex(used[j]) && used[i].id != used[j].id
    {
      if j >= |chosen| {
        assert used[j] in Conversion(managed, enis, limit, cardCount) && CardIndex(used[j]) == 0;
        assert CardIndex(chosen[i]) in Cards(chosen);
      }
      OtherCardOtherId(enis, used[i], used[j]);
    }
  }

  lemma OtherCardOtherId(enis: seq<Eni>, e: Eni, f: Eni)
    requires InstanceListing(enis) && e in enis && f in enis && CardIndex(e) != CardIndex(f)
    ensures e.id != f.id
  {
    var i :| 0 <= i < |enis| && enis[i] == e;
    var j :| 0 <= j < |enis| && enis[j] == f;
    assert i != j;
  }

  lemma UsedCards(managed: bool, enis: seq<Eni>, limit: int, cardCount: int)
    requires InstanceListing(enis)
    ensures Cards(Used(managed, enis, limit, cardCount)) == Cards(FirstPerCard(managed, enis, {})) +
      if Conversion(managed, enis, limit, cardCount) != [] then {0} else {}
  {
    ConversionParts(managed, enis, limit, cardCount);
    var chosen, conv := FirstPerCard(managed, enis, {}), Conversion(managed, enis, limit, cardCount);
    if conv != [] {
      assert conv == [conv[0]] && conv[0] in conv;
      CardsSnoc(chosen, conv[0]);
    } else {
      assert chosen + conv == chosen;
    }
  }

  lemma OnCardIffUsed(used: seq<Eni>, share: int, c: int)
    ensures OnCard(ToEris(used, share), c) <==> c in Cards(used)
  {
    if c in Cards(used) {
      var e :| e in used && CardIndex(e) == c;
      var k :| 0 <= k < |used| && used[k] == e;
      assert ToEris(used, share)[k].card == c;
    }
    if OnCard(ToEris(used, share), c) {
      var k :| 0 <= k < |used| && ToEris(used, share)[k].card == c;
      assert used[k] in used;
    }
  }

  lemma OwnedCards(managed: bool, enis: seq<Eni>)
    ensures forall c :: c in Cards(FirstPerCard(managed, enis, {})) <==> CardOwned(managed, enis, c)
  {
    FirstPerCardPicks(managed, enis, {});
  }

  /** Which cards a plan uses and which it creates for. */
  lemma PlanOnCard(managed: bool, enis: seq<Eni>, limit: int, cardCount: int, c: int)
    requires InstanceListing(enis)
    requires PlanFor(managed, enis, limit, cardCount).Ok?
    ensures
      var p := PlanFor(managed, enis, limit, cardCount).value;
      var byPrimary := c == 0 && Conversion(managed, enis, limit, cardCount) != [];
      && (OnCard(p.eris, c) <==> CardOwned(managed, enis, c) || byPrimary)
      && (c in p.create <==> p.share > 0 && 0 <= c < cardCount && !CardOwned(managed, enis, c) && !byPrimary)
  {
    var p := PlanFor(managed, enis, limit, cardCount).value;
    var chosen := FirstPerCard(managed, enis, {});
    UsedCards(managed, enis, limit, cardCount);
    OwnedCards(managed, enis);
    PlanParts(managed, enis, limit, cardCount);
    MissingAre(Cards(chosen), 0, cardCount);
    MissingAre(Cards(chosen), 1, cardCount);
    OnCardIffUsed(Used(managed, enis, limit, cardCount), p.share, c);
  }

  /** No card is used twice, nothing is created on a used card, and every card is covered exactly when there is
      something to hand out or nothing was missing. */
  lemma PlanPartitionsCards(managed: bool, enis: seq<Eni>, limit: int, cardCount: int)
    requires InstanceListing(enis)
    requires PlanFor(managed, enis, limit, cardCount).Ok?
    ensures
      var p := PlanFor(managed, enis, limit, cardCount).value;
      && (forall i, j :: 0 <= i < j < |p.eris| ==> p.eris[i].card != p.eris[j].card && p.eris[i].id != p.eris[j].id)
      && (forall i, j :: 0 <= i < j < |p.create| ==> p.create[i] < p.create[j])
      && (forall c :: c in p.create ==> 0 <= c < cardCount && !OnCard(p.eris, c))
      && ((forall c :: 0 <= c < cardCount ==> OnCard(p.eris, c) || c in p.create) <==>
          (p.share > 0 || forall c :: 0 <= c < cardCount ==> CardOwned(managed, enis, c)))
  {
    var p := PlanFor(managed, enis, limit, cardCount).value;
    UsedOncePerCard(managed, enis, limit, cardCount);
    assert p.eris == ToEris(Used(managed, enis, limit, cardCount), p.share);
    CreateAscends(managed, enis, limit, cardCount);
    forall c
      ensures c in p.create ==> 0 <= c < cardCount && !OnCard(p.eris, c)
      ensures 0 <= c < cardCount ==>
        (OnCard(p.eris, c) || c in p.create <==> p.share > 0 || CardOwned(managed, enis, c))
    {
      PlanOnCard(managed, enis, limit, cardCount, c);
    }
  }

  lemma CreateAscends(managed: bool, enis: seq<Eni>, limit: int, cardCount: int)
    requires PlanFor(managed, enis, limit, cardCount).Ok?
    ensures
      var create := PlanFor(managed, enis, limit, cardCount).value.create;
      forall i, j :: 0 <= i < j < |create| ==> create[i] < create[j]
  {
    MissingAre(Cards(FirstPerCard(managed, enis, {})), 0, cardCount);
    MissingAre(Cards(FirstPerCard(managed, enis, {})), 1, cardCount);
  }
}
