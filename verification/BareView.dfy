/** What the planner does not look at in an interface, its status and every tag but the creator's, and that leaving it
    out changes no plan. */
module BareView {
  import opened Prelude
  import opened EniTypes
  import opened Planner
  import opened PlanExecution
  import opened Replan
  import opened Retry

  /** An interface without what plays no part in planning: its status, and every tag but the creator's. */
  function Bare(e: Eni): Eni {
    e.(status := None, tags := if HasCreatorTag(e) then map[CREATOR_KEY := CREATOR_VALUE] else map[])
  }

  function BareAll(enis: seq<Eni>): (r: seq<Eni>)
    ensures |r| == |enis|
  {
    if enis == [] then [] else [Bare(enis[0])] + BareAll(enis[1..])
  }

  lemma {:induction false} BareAt(enis: seq<Eni>)
    ensures forall k :: 0 <= k < |enis| ==> BareAll(enis)[k] == Bare(enis[k])
  {
    if enis != [] {
      BareAt(enis[1..]);
    }
  }

  lemma BareBag(a: seq<Eni>)
    ensures forall f :: f in BareAll(a) <==> exists e :: e in a && f == Bare(e)
  {
    BareAt(a);
    forall f
      ensures f in BareAll(a) <==> exists e :: e in a && f == Bare(e)
    {
      if f in BareAll(a) {
        var k :| 0 <= k < |a| && BareAll(a)[k] == f;
        assert a[k] in a;
      }
      if e :| e in a && f == Bare(e) {
        var k :| 0 <= k < |a| && a[k] == e;
        assert BareAll(a)[k] == f;
      }
    }
  }

  lemma {:induction false} BareChoice(managed: bool, enis: seq<Eni>, taken: set<int>)
    ensures FirstPerCard(managed, BareAll(enis), taken) == BareAll(FirstPerCard(managed, enis, taken))
  {
    if enis != [] {
      BareChoice(managed, enis[1..], taken);
      BareChoice(managed, enis[1..], taken + {CardIndex(enis[0])});
      assert BareAll(enis)[1..] == BareAll(enis[1..]);
      var rest := FirstPerCard(managed, enis[1..], taken + {CardIndex(enis[0])});
      assert ([enis[0]] + rest)[1..] == rest;
    }
  }

  lemma {:induction false} BareTotals(enis: seq<Eni>)
    ensures QueuePairTotal(BareAll(enis)) == QueuePairTotal(enis)
    ensures Primaries(BareAll(enis)) == BareAll(Primaries(enis))
  {
    if enis != [] {
      BareTotals(enis[1..]);
      assert BareAll(enis)[1..] == BareAll(enis[1..]);
      if enis[0].isPrimary {
        assert ([enis[0]] + Primaries(enis[1..]))[1..] == Primaries(enis[1..]);
      } else {
        assert Primaries(enis) == Primaries(enis[1..]);
      }
    }
  }

  lemma BareCards(enis: seq<Eni>)
    ensures Cards(BareAll(enis)) == Cards(enis)
  {
    BareAt(enis);
    forall c
      ensures c in Cards(BareAll(enis)) <==> c in Cards(enis)
    {
      if c in Cards(enis) {
        var e :| e in enis && CardIndex(e) == c;
        var k :| 0 <= k < |enis| && enis[k] == e;
        assert BareAll(enis)[k] in BareAll(enis);
      }
      if c in Cards(BareAll(enis)) {
        var e :| e in BareAll(enis) && CardIndex(e) == c;
        var k :| 0 <= k < |enis| && BareAll(enis)[k] == e;
        assert enis[k] in enis;
      }
    }
  }

  lemma {:induction false} BareJoins(a: seq<Eni>, b: seq<Eni>)
    ensures BareAll(a + b) == BareAll(a) + BareAll(b)
  {
    if a == [] {
      assert a + b == b;
    } else {
      assert (a + b)[1..] == a[1..] + b;
      BareJoins(a[1..], b);
    }
  }

  lemma BareEris(enis: seq<Eni>, share: int)
    ensures ToEris(BareAll(enis), share) == ToEris(enis, share)
  {
    BareAt(enis);
  }

  lemma BareShare(managed: bool, enis: seq<Eni>, limit: int, cardCount: int)
    ensures Cards(FirstPerCard(managed, BareAll(enis), {})) == Cards(FirstPerCard(managed, enis, {}))
    ensures Share(managed, BareAll(enis), limit, cardCount) == Share(managed, enis, limit, cardCount)
  {
    BareChoice(managed, enis, {});
    BareCards(FirstPerCard(managed, enis, {}));
    BareTotals(enis);
    ShareDependsOn(managed, BareAll(enis), enis, limit, cardCount);
  }

  lemma BareConverted(managed: bool, enis: seq<Eni>, limit: int, cardCount: int)
    ensures Conversion(managed, BareAll(enis), limit, cardCount) == BareAll(Conversion(managed, enis, limit, cardCount))
  {
    BareShare(managed, enis, limit, cardCount);
    BareTotals(enis);
  }

  lemma BarePlan(managed: bool, enis: seq<Eni>, limit: int, cardCount: int)
    ensures PlanFor(managed, BareAll(enis), limit, cardCount) == PlanFor(managed, enis, limit, cardCount)
  {
    var chosen, conv := FirstPerCard(managed, enis, {}), Conversion(managed, enis, limit, cardCount);
    BareShare(managed, enis, limit, cardCount);
    BareConverted(managed, enis, limit, cardCount);
    BareChoice(managed, enis, {});
    BareJoins(chosen, conv);
    BareEris(chosen + conv, Share(managed, enis, limit, cardCount));
  }

  lemma {:induction false} BareWithout(enis: seq<Eni>, ids: set<EniId>)
    ensures Without(BareAll(enis), ids) == BareAll(Without(enis, ids))
    ensures Only(BareAll(enis), ids) == BareAll(Only(enis, ids))
  {
    if enis != [] {
      BareWithout(enis[1..], ids);
      assert BareAll(enis)[1..] == BareAll(enis[1..]);
      if enis[0].id in ids {
        assert Without(enis, ids) == Without(enis[1..], ids);
        assert Only(enis, ids)[1..] == Only(enis[1..], ids);
      } else {
        assert Only(enis, ids) == Only(enis[1..], ids);
        assert Without(enis, ids)[1..] == Without(enis[1..], ids);
      }
    }
  }

  lemma {:induction false} ConvertAt(p: Plan, enis: seq<Eni>)
    ensures |Convert(p, enis)| == |enis|
    ensures forall k :: 0 <= k < |enis| ==> Convert(p, enis)[k] == ConvertOne(p, enis[k])
  {
    if enis != [] {
      ConvertAt(p, enis[1..]);
    }
  }

  lemma BareConverts(p: Plan, x: Eni)
    ensures ConvertOne(p, Bare(x)) == Bare(ConvertOne(p, x))
  {}

  lemma BareConversion(p: Plan, listing: seq<Eni>, rest: seq<Eni>)
    requires |rest| == |listing| && forall k :: 0 <= k < |listing| ==> Bare(rest[k]) == Bare(ConvertOne(p, listing[k]))
    ensures BareAll(rest) == Convert(p, BareAll(listing))
  {
    BareAt(rest);
    BareAt(listing);
    ConvertAt(p, BareAll(listing));
    forall k | 0 <= k < |listing|
      ensures BareAll(rest)[k] == Convert(p, BareAll(listing))[k]
    {
      BareConverts(p, listing[k]);
    }
  }

  // ---------- Listings without repetition ----------

  lemma {:induction false} CountOnce<T>(s: seq<T>, x: T)
    requires NoDup(s)
    ensures multiset(s)[x] == if x in s then 1 else 0
  {
    if s != [] {
      CountOnce(s[1..], x);
      assert s == [s[0]] + s[1..];
      assert s[0] !in s[1..];
    }
  }

  lemma SameOnce<T>(a: seq<T>, b: seq<T>)
    requires NoDup(a) && NoDup(b) && forall x :: x in a <==> x in b
    ensures multiset(a) == multiset(b)
  {
    forall x
      ensures multiset(a)[x] == multiset(b)[x]
    {
      CountOnce(a, x);
      CountOnce(b, x);
    }
  }

  lemma {:induction false} OnlyDistinct(enis: seq<Eni>, ids: set<EniId>)
    requires DistinctIds(enis)
    ensures DistinctIds(Only(enis, ids))
  {
    if enis != [] {
      OnlyDistinct(enis[1..], ids);
      FilterParts(enis[1..], ids);
      if enis[0].id in ids {
        forall e | e in Only(enis[1..], ids)
          ensures e.id != enis[0].id
        {
          var k :| 0 <= k < |enis[1..]| && enis[1..][k] == e;
          assert enis[k + 1] == e;
        }
        assert Only(enis, ids) == [enis[0]] + Only(enis[1..], ids);
      } else {
        assert Only(enis, ids) == Only(enis[1..], ids);
      }
    }
  }

  lemma BareDistinct(enis: seq<Eni>)
    requires DistinctIds(enis)
    ensures DistinctIds(BareAll(enis)) && NoDup(BareAll(enis))
  {
    BareAt(enis);
  }

  lemma BareSame(a: seq<Eni>, b: seq<Eni>)
    requires DistinctIds(a) && DistinctIds(b) && forall e :: e in a <==> e in b
    ensures multiset(BareAll(a)) == multiset(BareAll(b))
  {
    SameOnce(a, b);
    BareBag(a);
    BareBag(b);
    BareDistinct(a);
    BareDistinct(b);
    SameOnce(BareAll(a), BareAll(b));
  }

  lemma BareIds(enis: seq<Eni>)
    ensures Ids(BareAll(enis)) == Ids(enis)
  {
    BareBag(enis);
    forall id
      ensures id in Ids(BareAll(enis)) <==> id in Ids(enis)
    {
      if id in Ids(enis) {
        var e :| e in enis && e.id == id;
        assert Bare(e) in BareAll(enis);
      }
    }
  }

  lemma BareListing(enis: seq<Eni>)
    requires InstanceListing(enis)
    ensures InstanceListing(BareAll(enis))
  {
    BareBag(enis);
    BareAt(enis);
    BareTotals(enis);
    assert |Primaries(BareAll(enis))| == |Primaries(enis)|;
  }

  // ---------- Planning again ----------

  lemma {:induction false} BareSwitched(p: Plan, enis: seq<Eni>)
    ensures |Switched(p, BareAll(enis))| == |Switched(p, enis)|
  {
    if enis != [] {
      BareSwitched(p, enis[1..]);
      assert BareAll(enis)[1..] == BareAll(enis[1..]);
    }
  }

  lemma BareSpent(p: Plan, enis: seq<Eni>)
    ensures Spent(p, BareAll(enis)) == Spent(p, enis) && QueuePairTotal(BareAll(enis)) == QueuePairTotal(enis)
  {
    BareSwitched(p, enis);
    BareTotals(enis);
  }

  lemma BareUnowned(managed: bool, conv: seq<Eni>)
    ensures Unowned(managed, BareAll(conv)) <==> Unowned(managed, conv)
  {
    BareBag(conv);
    if z :| z in conv && !Owns(managed, z) {
      assert Bare(z) in BareAll(conv) && !Owns(managed, Bare(z));
    }
  }

  lemma BareMade(made: seq<Eni>, id: EniId, card: int)
    ensures Standing(BareAll(made), id, card) <==> Standing(made, id, card)
  {
    BareBag(made);
    if e :| e in made && e.id == id && CardIndex(e) == card {
      assert Bare(e) in BareAll(made);
    }
  }

  lemma BareSameAgain(p: Plan, made: seq<Eni>, again: Result<Plan, PlanError>)
    ensures SameAgain(p, BareAll(made), again) <==> SameAgain(p, made, again)
  {
    forall id, card
      ensures Standing(BareAll(made), id, card) <==> Standing(made, id, card)
    {
      BareMade(made, id, card);
    }
  }

  lemma BareLeftover(managed: bool, enis: seq<Eni>, limit: int, cardCount: int)
    requires PlanFor(managed, enis, limit, cardCount).Ok?
    ensures PlanFor(managed, BareAll(enis), limit, cardCount).Ok?
    ensures Leftover(managed, BareAll(enis), limit, cardCount) == Leftover(managed, enis, limit, cardCount)
  {
    BarePlan(managed, enis, limit, cardCount);
    BareSpent(PlanFor(managed, enis, limit, cardCount).value, enis);
  }

  lemma BareConversionOwned(managed: bool, enis: seq<Eni>, limit: int, cardCount: int)
    ensures Unowned(managed, Conversion(managed, BareAll(enis), limit, cardCount)) <==>
      Unowned(managed, Conversion(managed, enis, limit, cardCount))
  {
    BareConverted(managed, enis, limit, cardCount);
    BareUnowned(managed, Conversion(managed, enis, limit, cardCount));
  }
}
