/** The cloud's network interfaces: the writes that can happen to them, the calls the controller makes, and what
    holds over every history of writes. Interfaces are never detached or deleted here. */
module CloudApi {
  import opened Prelude
  import opened EniTypes

  type Enis = map<EniId, Eni>

  datatype Event =
    | Created(eni: Eni)
    | AttachAccepted(id: EniId, instance: string, card: Option<int>)
    | AttachFinished(id: EniId)
    | ModeChanged(id: EniId, queuePairs: int)
    | TagsSet(ids: set<EniId>, tags: map<string, string>)

  /** An interface as CreateNetworkInterface makes it for this controller. */
  ghost predicate MadeHere(e: Eni, share: int, instance: string) {
    && IsRdma(e) && e.queuePairs == Some(share) && !e.isPrimary && e.status == Some(Available)
    && e.instance == None && e.card == None && HasTags(e, instance)
  }

  /** The reuse query: created by this controller for this instance. */
  predicate HasTags(e: Eni, instance: string) {
    HasCreatorTag(e) && INSTANCE_KEY in e.tags && e.tags[INSTANCE_KEY] == instance
  }

  /** The reuse query asks for the creator tag and for the instance. */
  lemma ReuseQueryMeans(e: Eni, instance: string)
    ensures HasTags(e, instance) <==>
      && "creator" in e.tags && e.tags["creator"] == "alibabacloud-erdma-controller"
      && "instance-id" in e.tags && e.tags["instance-id"] == instance
  {}

  /** Which writes the cloud accepts. Only an Available interface can be attached; tag calls never carry the
      creator key, which every caller here has to respect. */
  predicate Enabled(enis: Enis, ev: Event) {
    match ev
    case Created(e) =>
      e.id !in enis && e.status == Some(Available) && e.instance == None && e.card == None && !e.isPrimary
    case AttachAccepted(id, _, _) => id in enis && enis[id].status == Some(Available)
    case AttachFinished(id) => id in enis && enis[id].status == Some(Attaching)
    case ModeChanged(id, _) => id in enis
    case TagsSet(ids, tags) => CREATOR_KEY !in tags
  }

  function Apply(enis: Enis, ev: Event): Enis
    requires Enabled(enis, ev)
  {
    match ev
    case Created(e) => enis[e.id := e]
    case AttachAccepted(id, instance, card) =>
      enis[id := enis[id].(status := Some(Attaching), instance := Some(instance), card := card)]
    case AttachFinished(id) => enis[id := enis[id].(status := Some(InUse))]
    case ModeChanged(id, n) => enis[id := enis[id].(mode := HighPerformance, queuePairs := Some(n))]
    case TagsSet(ids, tags) =>
      map id | id in enis :: if id in ids then enis[id].(tags := enis[id].tags + tags) else enis[id]
  }

  ghost predicate Legal(start: Enis, log: seq<Event>)
    decreases |log|, 0
  {
    log == [] ||
    (Legal(start, log[..|log| - 1]) && Enabled(After(start, log[..|log| - 1]), log[|log| - 1]))
  }

  ghost function After(start: Enis, log: seq<Event>): Enis
    requires Legal(start, log)
    decreases |log|, 1
  {
    if log == [] then start else Apply(After(start, log[..|log| - 1]), log[|log| - 1])
  }

  lemma LegalStep(start: Enis, log: seq<Event>, ev: Event)
    requires Legal(start, log) && Enabled(After(start, log), ev)
    ensures Legal(start, log + [ev]) && After(start, log + [ev]) == Apply(After(start, log), ev)
  {
    assert (log + [ev])[..|log|] == log;
  }

  lemma {:induction false} LegalPrefix(start: Enis, log: seq<Event>, k: nat)
    requires Legal(start, log) && k <= |log|
    ensures Legal(start, log[..k])
  {
    if k < |log| {
      LegalPrefix(start, log[..|log| - 1], k);
      assert log[..|log| - 1][..k] == log[..k];
    } else {
      assert log[..k] == log;
    }
  }

  // ---------- What every write keeps ----------

  predicate StatusMoves(s: Option<Status>, t: Option<Status>) {
    || s == t
    || (s == Some(Available) && (t == Some(Attaching) || t == Some(InUse)))
    || (s == Some(Attaching) && t == Some(InUse))
  }

  predicate EniMoves(e: Eni, f: Eni) {
    && f.id == e.id && f.isPrimary == e.isPrimary && f.mac == e.mac
    && (IsRdma(e) ==> IsRdma(f))
    && StatusMoves(e.status, f.status)
    && (e.status != Some(Available) ==> f.card == e.card && f.instance == e.instance)
    && (HasCreatorTag(f) <==> HasCreatorTag(e))
  }

  ghost predicate Evolves(a: Enis, b: Enis) {
    forall id :: id in a ==> id in b && EniMoves(a[id], b[id])
  }

  lemma EvolvesTransitive(a: Enis, b: Enis, c: Enis)
    requires Evolves(a, b) && Evolves(b, c)
    ensures Evolves(a, c)
  {
    forall id | id in a
      ensures id in c && EniMoves(a[id], c[id])
    {
      assert id in b && EniMoves(a[id], b[id]) && EniMoves(b[id], c[id]);
    }
  }

  lemma EvolvesItself(enis: Enis)
    ensures Evolves(enis, enis)
  {}

  lemma ApplyEvolves(enis: Enis, ev: Event)
    requires Enabled(enis, ev)
    ensures Evolves(enis, Apply(enis, ev))
  {}

  /** From any point of a history on, interfaces only move forward. */
  lemma {:induction false} HistoryEvolves(start: Enis, log: seq<Event>, k: nat)
    requires Legal(start, log) && k <= |log|
    ensures Legal(start, log[..k]) && Evolves(After(start, log[..k]), After(start, log))
  {
    LegalPrefix(start, log, k);
    if k < |log| {
      var before := log[..|log| - 1];
      assert before[..k] == log[..k];
      HistoryEvolves(start, before, k);
      ApplyEvolves(After(start, before), log[|log| - 1]);
      EvolvesTransitive(After(start, log[..k]), After(start, before), After(start, log));
    } else {
      assert log[..k] == log;
    }
  }

  // ---------- Attach at most once, on the planned card ----------

  /** An accepted attach is never followed by another accepted attach of the same interface. */
  lemma AttachedAtMostOnce(start: Enis, log: seq<Event>, i: nat, j: nat)
    requires Legal(start, log) && i < j < |log|
    requires log[i].AttachAccepted? && log[j].AttachAccepted?
    ensures log[i].id != log[j].id
  {
    LegalPrefix(start, log, j);
    LegalPrefix(start, log, j + 1);
    HistoryEvolves(start, log[..j], i + 1);
    assert log[..j + 1][..j] == log[..j] && log[..j][..i + 1] == log[..i + 1];
    assert log[..i + 1][..i] == log[..i];
  }

  /** Card 0 is sent as an absent card index. */
  function SentCard(card: int): Option<int> {
    if card != 0 then Some(card) else None
  }

  /** The cloud reports the card it was given; without one it may report card 0 or nothing. */
  predicate Reports(sent: Option<int>, reported: Option<int>) {
    reported == sent || (sent == None && reported == Some(0))
  }

  /** Once accepted for a planned card, the interface reads back on that card of that instance for ever. */
  lemma CardReadsBack(start: Enis, log: seq<Event>, i: nat, card: int)
    requires Legal(start, log) && i < |log|
    requires log[i].AttachAccepted? && Reports(SentCard(card), log[i].card)
    ensures SentCard(card) != Some(0) && (SentCard(card) == Some(card) || card == 0)
    ensures log[i].id in After(start, log) && CardIndex(After(start, log)[log[i].id]) == card
    ensures After(start, log)[log[i].id].instance == Some(log[i].instance)
  {
    HistoryEvolves(start, log, i + 1);
    assert log[..i + 1][..i] == log[..i];
  }

  /** No attach is accepted from position `from` on, except of interfaces outside `ids`. */
  ghost predicate NoAttachOf(log: seq<Event>, from: nat, ids: set<EniId>) {
    forall i :: from <= i < |log| && log[i].AttachAccepted? ==> log[i].id !in ids
  }

  /** No mode of these interfaces is changed from position `from` on. */
  ghost predicate NoModeOf(log: seq<Event>, from: nat, ids: set<EniId>) {
    forall i :: from <= i < |log| && log[i].ModeChanged? ==> log[i].id !in ids
  }

  ghost predicate NoAttach(log: seq<Event>, from: nat) {
    forall i :: from <= i < |log| ==> !log[i].AttachAccepted?
  }

  /** From position `from` on, the only mode change is of this interface to this queue-pair number. */
  ghost predicate ModesOnly(log: seq<Event>, from: nat, id: EniId, queuePairs: int) {
    forall i :: from <= i < |log| && log[i].ModeChanged? ==> log[i] == ModeChanged(id, queuePairs)
  }

  lemma OneConversion(log: seq<Event>, id: EniId, queuePairs: int)
    ensures NoAttach(log + [ModeChanged(id, queuePairs)], |log|)
    ensures ModesOnly(log + [ModeChanged(id, queuePairs)], |log|, id, queuePairs)
  {}

  // ---------- Creator-tag separation ----------

  /** Where in the history, and as what, an interface was created. */
  ghost predicate CreatedAs(log: seq<Event>, i: nat, e: Eni) {
    i < |log| && log[i] == Created(e)
  }

  /** Whatever creates, attaches, conversions and tag calls are interleaved, an interface carries the creator tag
      exactly if it had it at the start or was created with it. In particular one that was there without the tag, or
      was created without it, is never returned by the reuse query of any instance. */
  lemma CreatorTagSeparation(start: Enis, log: seq<Event>, id: EniId)
    requires Legal(start, log) && id in After(start, log)
    ensures id in start ==> (HasCreatorTag(After(start, log)[id]) <==> HasCreatorTag(start[id]))
    ensures id !in start ==> exists i, e :: CreatedAs(log, i, e) && e.id == id
    ensures forall i, e :: CreatedAs(log, i, e) && e.id == id ==>
      (HasCreatorTag(After(start, log)[id]) <==> HasCreatorTag(e))
    ensures id in start && !HasCreatorTag(start[id]) ==> forall instance :: !HasTags(After(start, log)[id], instance)
    ensures forall i, e :: CreatedAs(log, i, e) && e.id == id && !HasCreatorTag(e) ==>
      forall instance :: !HasTags(After(start, log)[id], instance)
  {
    assert log[..0] == [];
    HistoryEvolves(start, log, 0);
    if id !in start {
      OnlyCreateAdds(start, log, id);
    }
    forall i, e | CreatedAs(log, i, e) && e.id == id
      ensures HasCreatorTag(After(start, log)[id]) <==> HasCreatorTag(e)
    {
      TagAsCreated(start, log, i, e);
    }
  }

  lemma TagAsCreated(start: Enis, log: seq<Event>, i: nat, e: Eni)
    requires Legal(start, log) && CreatedAs(log, i, e)
    ensures e.id in After(start, log) && (HasCreatorTag(After(start, log)[e.id]) <==> HasCreatorTag(e))
  {
    HistoryEvolves(start, log, i + 1);
    assert log[..i + 1][..i] == log[..i];
    assert After(start, log[..i + 1])[e.id] == e;
  }

  lemma {:induction false} OnlyCreateAdds(start: Enis, log: seq<Event>, id: EniId)
    requires Legal(start, log) && id in After(start, log) && id !in start
    ensures exists i, e :: CreatedAs(log, i, e) && e.id == id
  {
    var before, last := log[..|log| - 1], log[|log| - 1];
    if id in After(start, before) {
      OnlyCreateAdds(start, before, id);
      var i, e :| CreatedAs(before, i, e) && e.id == id;
      assert CreatedAs(log, i, e);
    } else {
      assert CreatedAs(log, |log| - 1, last.eni);
    }
  }
}
