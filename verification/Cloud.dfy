/** The cloud as the controller calls it: any call may fail, a write that reports failure may still have happened,
    listings come in any order. Interference lets other writers act where a caller asks for it. */
module Cloud {
  import opened Prelude
  import opened EniTypes
  import opened CloudApi

  const PAGE_SIZE := 100

  function Least(a: int, b: int): int {
    if a < b then a else b
  }

  /** One page of a listing: each wanted interface at most once, and all of them if they fit on the page. */
  ghost predicate IsPage(enis: Enis, page: seq<Eni>, wanted: set<EniId>) {
    && (forall e <- page :: e.id in wanted && e.id in enis && enis[e.id] == e)
    && (forall i, j :: 0 <= i < j < |page| ==> page[i].id != page[j].id)
    && |page| == Least(|wanted|, PAGE_SIZE)
    && (|wanted| <= PAGE_SIZE ==> forall id <- wanted :: Lists(page, id))
  }

  ghost predicate Lists(page: seq<Eni>, id: EniId) {
    exists k :: 0 <= k < |page| && page[k].id == id
  }

  function Tagged(enis: Enis, instance: string): set<EniId> {
    set id | id in enis && HasTags(enis[id], instance)
  }

  function AttachedTo(enis: Enis, instance: string): set<EniId> {
    set id | id in enis && enis[id].instance == Some(instance)
  }

  /** A create call either took effect with the requested attributes and the three tags, or changed nothing. */
  ghost predicate CreateEffect(before: Enis, after: Enis, share: int, instance: string, id: EniId) {
    id !in before && after.Keys == before.Keys + {id} && after == before[id := after[id]]
    && after[id].id == id && MadeHere(after[id], share, instance)
    && after[id].tags == map["creator" := "alibabacloud-erdma-controller", "instance-id" := instance,
                             "terway.alibabacloud.com/excluded" := "true"]
  }

  /** A call of the controller. */
  datatype Call = DescribeCall | CreateCall | AttachCall(id: EniId) | ModifyCall(id: EniId) | TagCall

  /** From position `from` on, this call was answered with an error. */
  ghost predicate RefusedSince(refused: seq<Call>, from: nat, call: Call) {
    exists i :: from <= i < |refused| && refused[i] == call
  }

  class Cloud {
    var enis: Enis
    ghost const start: Enis
    /** The interfaces whose traffic mode nobody but the controller changes. */
    ghost const left: set<EniId>
    ghost var log: seq<Event>
    /** The calls that were answered with an error, whether or not they took effect. */
    ghost var refused: seq<Call>

    constructor (enis: Enis, ghost left: set<EniId>)
      requires forall id <- enis :: enis[id].id == id
      ensures Valid() && this.enis == start == enis && this.left == left && log == [] && refused == []
    {
      this.enis, start, this.left, log, refused := enis, enis, left, [], [];
    }

    ghost predicate Valid() reads this {
      && Legal(start, log) && enis == After(start, log)
      && forall id <- enis :: enis[id].id == id
    }

    method Take(ev: Event)
      requires Valid() && Enabled(enis, ev)
      modifies `enis, `log
      ensures Valid() && log == old(log) + [ev] && enis == Apply(old(enis), ev) && Evolves(old(enis), enis)
    {
      LegalStep(start, log, ev);
      ApplyEvolves(enis, ev);
      log := log + [ev];
      enis := Apply(enis, ev);
    }

    /** Other writers and the cloud itself act: any number of accepted writes, except that nobody else attaches the
        interfaces in `ours` or changes the mode of those in `left`. The body finishes some attaches; callers know only
        the contract. */
    method Interference(ghost ours: set<EniId>)
      requires Valid()
      modifies `enis, `log
      ensures Valid() && old(log) <= log && Evolves(old(enis), enis)
      ensures NoAttachOf(log, |old(log)|, ours) && NoModeOf(log, |old(log)|, left)
    {
      var attaching := set id | id in enis && enis[id].status == Some(Attaching);
      while attaching != {}
        invariant Valid() && old(log) <= log && Evolves(old(enis), enis)
        invariant NoAttach(log, |old(log)|) && NoModeOf(log, |old(log)|, left)
        invariant forall id <- attaching :: id in enis && enis[id].status == Some(Attaching)
        decreases attaching
      {
        var id :| id in attaching;
        attaching := attaching - {id};
        if * {
          ghost var before := enis;
          Take(AttachFinished(id));
          EvolvesTransitive(old(enis), before, enis);
        }
      }
    }

    method Page(wanted: set<EniId>) returns (page: seq<Eni>)
      requires Valid() && wanted <= enis.Keys
      ensures IsPage(enis, page, wanted)
    {
      page := [];
      var rest := wanted;
      while rest != {} && |page| < PAGE_SIZE
        invariant rest <= wanted && |page| + |rest| == |wanted| && |page| <= PAGE_SIZE
        invariant forall e <- page :: e.id in wanted - rest && e.id in enis && enis[e.id] == e
        invariant forall i, j :: 0 <= i < j < |page| ==> page[i].id != page[j].id
        invariant forall id <- wanted - rest :: Lists(page, id)
        decreases rest
      {
        var id :| id in rest;
        ghost var before, todo := page, rest;
        assert forall x <- wanted - todo :: Lists(before, x);
        page := page + [enis[id]];
        rest := rest - {id};
        assert page[|before|].id == id;
        forall x | x in wanted - rest
          ensures Lists(page, x)
        {
          if x != id {
            assert x in wanted - todo && Lists(before, x);
            var k :| 0 <= k < |before| && before[k].id == x;
            assert page[k].id == x;
          }
        }
      }
    }

    /** The controller is told that its call failed. */
    ghost method Refuse(call: Call)
      requires Valid()
      modifies `refused
      ensures Valid() && refused == old(refused) + [call]
    {
      refused := refused + [call];
    }

    /** The answer to a call, whatever has become of it. */
    method Answer(call: Call) returns (ok: bool)
      requires Valid()
      modifies `refused
      ensures Valid() && refused == old(refused) + if ok then [] else [call]
    {
      ok := *;
      if !ok {
        Refuse(call);
      }
    }

    /** DescribeInstances and DescribeInstanceTypes, whose answers are parameters of the caller. */
    method DescribeType() returns (ok: bool)
      requires Valid()
      modifies `refused
      ensures Valid() && refused == old(refused) + if ok then [] else [DescribeCall]
    {
      ok := Answer(DescribeCall);
    }

    method DescribeTagged(instance: string) returns (page: Option<seq<Eni>>)
      requires Valid()
      modifies `refused
      ensures Valid() && refused == old(refused) + if page.Some? then [] else [DescribeCall]
      ensures page.Some? ==> IsPage(enis, page.value, Tagged(enis, instance)) && |page.value| <= 100
    {
      if * {
        Refuse(DescribeCall);
        return None;
      }
      var p := Page(Tagged(enis, instance));
      return Some(p);
    }

    method DescribeInstance(instance: string) returns (page: Option<seq<Eni>>)
      requires Valid()
      modifies `refused
      ensures Valid() && refused == old(refused) + if page.Some? then [] else [DescribeCall]
      ensures page.Some? ==> IsPage(enis, page.value, AttachedTo(enis, instance)) && |page.value| <= 100
    {
      if * {
        Refuse(DescribeCall);
        return None;
      }
      var p := Page(AttachedTo(enis, instance));
      return Some(p);
    }

    method Describe(ids: seq<EniId>) returns (page: Option<seq<Eni>>)
      requires Valid()
      modifies `refused
      ensures Valid() && refused == old(refused) + if page.Some? then [] else [DescribeCall]
      ensures page.Some? ==> IsPage(enis, page.value, set id | id in ids && id in enis) && |page.value| <= 100
    {
      if * {
        Refuse(DescribeCall);
        return None;
      }
      var p := Page(set id | id in ids && id in enis);
      return Some(p);
    }

    method FreshId() returns (id: EniId)
      ensures id !in enis
    {
      var rest, n: nat := enis.Keys, 0;
      while rest != {}
        invariant forall x <- enis.Keys - rest :: |x| <= n
        decreases rest
      {
        var x :| x in rest;
        rest := rest - {x};
        n := if |x| > n then |x| else n;
      }
      id := seq(n + 1, _ => 'e');
      assert id in enis.Keys - rest ==> |id| <= n;
    }

    /** CreateNetworkInterface with the three tags the controller sends. */
    method CreateNetworkInterface(instance: string, share: int) returns (r: Option<(EniId, string)>)
      requires Valid()
      modifies this
      ensures Valid() && old(log) <= log && |log| <= |old(log)| + 1
      ensures |log| == |old(log)| ==> enis == old(enis)
      ensures refused == old(refused) + if r.Some? then [] else [CreateCall]
      ensures r.Some? ==> CreateEffect(old(enis), enis, share, instance, r.value.0) && enis[r.value.0].mac == r.value.1
      ensures r.None? ==> enis == old(enis) || exists id :: CreateEffect(old(enis), enis, share, instance, id)
    {
      if * {
        Refuse(CreateCall);
        return None;
      }
      var id := FreshId();
      var tags := map[CREATOR_KEY := CREATOR_VALUE, INSTANCE_KEY := instance, EXCLUDED_KEY := EXCLUDED_VALUE];
      Take(Created(Eni(id, false, id, HighPerformance, Some(share), None, None, Some(Available), tags)));
      assert CreateEffect(old(enis), enis, share, instance, id);
      if * {
        Refuse(CreateCall);
        return None;
      }
      return Some((id, enis[id].mac));
    }

    /** AttachNetworkInterface: accepted only for an Available interface. */
    method AttachNetworkInterface(id: EniId, instance: string, sent: Option<int>) returns (ok: bool)
      requires Valid() && id in enis
      modifies this
      ensures Valid() && old(log) <= log && Evolves(old(enis), enis)
      ensures ok ==> old(enis)[id].status == Some(Available) && enis[id].status == Some(Attaching)
      ensures ok ==> enis[id].instance == Some(instance) && Reports(sent, enis[id].card)
      ensures log == old(log) || exists card ::
        Reports(sent, card) && log == old(log) + [AttachAccepted(id, instance, card)]
      ensures ok ==> log != old(log)
      ensures refused == old(refused) + if ok then [] else [AttachCall(id)]
    {
      EvolvesItself(enis);
      var refused: bool, bare: bool := *, *;
      if enis[id].status != Some(Available) || refused {
        Refuse(AttachCall(id));
        return false;
      }
      var card := if bare then sent else Some(sent.GetOr(0));
      Take(AttachAccepted(id, instance, card));
      ok := Answer(AttachCall(id));
    }

    method ModifyNetworkInterfaceAttribute(id: EniId, queuePairs: int) returns (ok: bool)
      requires Valid() && id in enis
      modifies this
      ensures Valid() && old(log) <= log && Evolves(old(enis), enis)
      ensures ok ==> IsRdma(enis[id]) && enis[id].queuePairs == Some(queuePairs)
      ensures NoAttach(log, |old(log)|) && ModesOnly(log, |old(log)|, id, queuePairs)
      ensures refused == old(refused) + if ok then [] else [ModifyCall(id)]
    {
      EvolvesItself(enis);
      if * {
        Refuse(ModifyCall(id));
        return false;
      }
      OneConversion(log, id, queuePairs);
      Take(ModeChanged(id, queuePairs));
      ok := Answer(ModifyCall(id));
    }

    method TagResources(ids: seq<EniId>, tags: map<string, string>) returns (ok: bool)
      requires Valid() && CREATOR_KEY !in tags
      modifies this
      ensures Valid() && old(log) <= log && Evolves(old(enis), enis)
      ensures NoAttach(log, |old(log)|) && forall id, n :: ModesOnly(log, |old(log)|, id, n)
      ensures enis == old(enis) || enis == Apply(old(enis), TagsSet((set id | id in ids), tags))
      ensures ok ==> enis == Apply(old(enis), TagsSet((set id | id in ids), tags))
      ensures refused == old(refused) + if ok then [] else [TagCall]
    {
      EvolvesItself(enis);
      if * {
        Refuse(TagCall);
        return false;
      }
      Take(TagsSet((set id | id in ids), tags));
      ok := Answer(TagCall);
    }
  }
}
