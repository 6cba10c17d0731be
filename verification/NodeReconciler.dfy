/** NodeReconciler: which node events wake it up, and how it creates the device record once. */
module NodeReconciler {
  import opened Prelude
  import opened EniTypes
  import opened Cloud
  import opened Creation
  import opened SelectEris
  import opened DeviceReconciler
  import opened DeviceRuns
  import opened EndToEnd

  // ---------- The event filter ----------

  datatype Condition = Condition(isReadyType: bool, isTrue: bool)

  datatype Node = Node(labels: map<string, string>, conditions: seq<Condition>, deleting: bool, providerID: string)

  /** The first Ready condition decides; without one the node is not ready. */
  predicate IsNodeReady(node: Node) {
    FirstReadyIsTrue(node.conditions)
  }

  predicate FirstReadyIsTrue(conditions: seq<Condition>) {
    conditions != [] &&
    if conditions[0].isReadyType then conditions[0].isTrue else FirstReadyIsTrue(conditions[1..])
  }

  /** Condition i is the first of type Ready, and it is true. */
  ghost predicate SaysReady(conditions: seq<Condition>, i: nat) {
    && i < |conditions| && conditions[i].isReadyType && conditions[i].isTrue
    && forall j :: 0 <= j < i ==> !conditions[j].isReadyType
  }

  /** The first condition of type Ready decides, and nothing else. */
  lemma {:induction false} ReadyExactly(conditions: seq<Condition>)
    ensures FirstReadyIsTrue(conditions) <==> exists i: nat :: SaysReady(conditions, i)
  {
    if conditions != [] {
      var rest := conditions[1..];
      ReadyExactly(rest);
      if i: nat :| SaysReady(rest, i) {
        assert forall j :: 0 <= j < |rest| ==> rest[j] == conditions[j + 1];
        assert !conditions[0].isReadyType ==> SaysReady(conditions, i + 1);
      }
      if i: nat :| SaysReady(conditions, i) {
        assert forall j :: 0 <= j < |rest| ==> rest[j] == conditions[j + 1];
        assert i > 0 ==> SaysReady(rest, i - 1);
      }
      assert conditions[0].isReadyType && conditions[0].isTrue ==> SaysReady(conditions, 0);
    }
  }

  /** A label that is absent compares as the empty string. */
  function Label(node: Node, key: string): string {
    if key in node.labels then node.labels[key] else ""
  }

  predicate OwnNode(selector: map<string, string>, node: Node) {
    forall k <- selector :: Label(node, k) == selector[k]
  }

  predicate PredictNodeUpdate(selector: map<string, string>, oldNode: Node, newNode: Node) {
    if !OwnNode(selector, newNode) then false
    else if !OwnNode(selector, oldNode) && OwnNode(selector, newNode) then true
    else if newNode.deleting then true
    else if !IsNodeReady(oldNode) && IsNodeReady(newNode) then true
    else oldNode.providerID != newNode.providerID
  }

  /** The versions of a node: the first arrives as a create event, each later one as an update from the one before. */
  predicate Enqueued(selector: map<string, string>, versions: seq<Node>, i: nat)
    requires i < |versions|
  {
    if i == 0 then OwnNode(selector, versions[0]) else PredictNodeUpdate(selector, versions[i - 1], versions[i])
  }

  predicate OwnedAndReady(selector: map<string, string>, node: Node) {
    OwnNode(selector, node) && IsNodeReady(node)
  }

  /** From version i to version n the node has been owned and ready, and before i it was not. */
  ghost predicate StretchFrom(selector: map<string, string>, versions: seq<Node>, i: nat, n: nat)
    requires n < |versions|
  {
    && i <= n && (i > 0 ==> !OwnedAndReady(selector, versions[i - 1]))
    && forall j :: i <= j <= n ==> OwnedAndReady(selector, versions[j])
  }

  /** Whenever the current version is owned and ready, the reconciler was woken at the version that began the current
      owned-and-ready stretch: no wake-up is lost, whatever the history before. */
  lemma {:induction false} NoLostWakeUp(selector: map<string, string>, versions: seq<Node>, n: nat)
    requires n < |versions| && OwnedAndReady(selector, versions[n])
    ensures exists i :: 0 <= i <= n && StretchFrom(selector, versions, i, n) && Enqueued(selector, versions, i)
    decreases n
  {
    if n > 0 && OwnedAndReady(selector, versions[n - 1]) {
      NoLostWakeUp(selector, versions, n - 1);
      var i :| 0 <= i <= n - 1 && StretchFrom(selector, versions, i, n - 1) && Enqueued(selector, versions, i);
      assert StretchFrom(selector, versions, i, n);
    } else {
      assert StretchFrom(selector, versions, n, n) && Enqueued(selector, versions, n);
    }
  }

  /** From version i to version n the node has been owned with this provider id, and before i it was not. */
  ghost predicate ProvidedFrom(selector: map<string, string>, versions: seq<Node>, i: nat, n: nat)
    requires n < |versions|
  {
    && i <= n
    && (i > 0 ==> !(OwnNode(selector, versions[i - 1]) && versions[i - 1].providerID == versions[n].providerID))
    && forall j :: i <= j <= n ==> OwnNode(selector, versions[j]) && versions[j].providerID == versions[n].providerID
  }

  /** While a node is owned, the reconciler was woken at the version that gave it its present provider id: no change of
      the instance behind a node is lost. */
  lemma {:induction false} NoLostProvider(selector: map<string, string>, versions: seq<Node>, n: nat)
    requires n < |versions| && OwnNode(selector, versions[n])
    ensures exists i :: 0 <= i <= n && ProvidedFrom(selector, versions, i, n) && Enqueued(selector, versions, i)
    decreases n
  {
    if n > 0 && OwnNode(selector, versions[n - 1]) && versions[n - 1].providerID == versions[n].providerID {
      NoLostProvider(selector, versions, n - 1);
      var i :| 0 <= i <= n - 1 && ProvidedFrom(selector, versions, i, n - 1) && Enqueued(selector, versions, i);
      assert ProvidedFrom(selector, versions, i, n);
    } else {
      assert ProvidedFrom(selector, versions, n, n) && Enqueued(selector, versions, n);
    }
  }

  /** Every version of an owned node that is being deleted wakes the reconciler; a node that is not owned never does;
      and nothing else does but becoming owned, becoming ready, or a new provider id. */
  lemma WakeUpsMean(selector: map<string, string>, versions: seq<Node>, n: nat)
    requires n < |versions|
    ensures OwnNode(selector, versions[n]) && versions[n].deleting ==> Enqueued(selector, versions, n)
    ensures !OwnNode(selector, versions[n]) ==> !Enqueued(selector, versions, n)
    ensures n > 0 && OwnNode(selector, versions[n - 1]) && !versions[n].deleting
            && versions[n].providerID == versions[n - 1].providerID
            && (IsNodeReady(versions[n]) ==> IsNodeReady(versions[n - 1])) ==>
      !Enqueued(selector, versions, n)
  {}

  /** A node is owned by a selector if each of its labels has the wanted value, an absent one counting as empty. */
  lemma OwnedMeans(selector: map<string, string>, node: Node)
    ensures OwnNode(selector, node) <==>
      && (forall k <- selector :: k in node.labels ==> node.labels[k] == selector[k])
      && (forall k <- selector :: k !in node.labels ==> selector[k] == "")
  {}

  // ---------- Create the record once ----------

  /** The branch of Reconcile after the instance is known: where a record exists nothing is selected (the backfill of
      its tags is in TagBackfill); otherwise select, and store a record whose spec is exactly what was selected. It
      fails only where the API server refused a call or the selection failed, and then nothing is stored; it does
      without a record only where a type is not supported. */
  method EnsureRecord(cloud: Cloud, store: RecordStore, managed: bool, instance: string, instanceType: string,
                      types: seq<InstanceType>)
    returns (ok: bool, ghost r: Option<Result<seq<Eri>, SelectError>>, ghost listing: seq<Eni>)
    requires cloud.Valid() && InstanceSound(cloud.enis, instance)
    modifies cloud, store
    ensures cloud.Valid() && old(cloud.log) <= cloud.log
    ensures old(store.cr).Some? ==> store.cr == old(store.cr) && cloud.log == old(cloud.log)
    ensures r.Some? ==>
      && old(store.cr).None?
      && SelectEffect(old(cloud.enis), cloud.enis, managed, instance, CapacityOf(types).0, CapacityOf(types).1,
                      listing, r.value)
      && Explained(cloud.enis, managed, instance, CapacityOf(types).0, CapacityOf(types).1, listing, r.value,
                   old(cloud.refused), cloud.refused)
    ensures r.None? ==> cloud.enis == old(cloud.enis)
    ensures !ok ==> store.cr == old(store.cr)
    ensures !ok ==>
      || store.refused == old(store.refused) + [GetRecord]
      || (r.Some? && r.value.Err? && store.refused == old(store.refused))
      || (r.Some? && r.value.Ok? && store.refused == old(store.refused) + [CreateRecord])
    ensures ok ==> store.refused == old(store.refused)
    ensures ok && old(store.cr).None? ==> if r.None? then SomeUnsupported(types, instanceType) else r.value.Ok?
    ensures ok && r.Some? ==> store.cr.Some? && Describing(store.cr.value, r.value.value)
    ensures ok && r.None? ==> store.cr == old(store.cr)
  {
    r, listing := None, [];
    var got, found := store.Get();
    if !got {
      return false, r, listing;
    }
    if found.Some? {
      return true, r, listing;
    }
    var eris;
    eris, listing := SelectERIs(cloud, managed, instance, instanceType, types);
    if eris.Err? {
      return false, Some(Err(eris.error)), listing;
    }
    if eris.value.None? {
      return true, r, listing;
    }
    r := Some(Ok(eris.value.value));
    ok := store.Create(Record(SpecOf(eris.value.value), []));
  }

  /** A fresh record that names every selected interface, in order and field by field. */
  ghost predicate Describing(record: Record, eris: seq<Eri>) {
    && record.status == [] && |record.spec| == |eris| && record.spec == SpecOf(eris)
    && forall k :: 0 <= k < |eris| ==>
         && record.spec[k].id == eris[k].id && record.spec[k].instance == eris[k].instance
         && record.spec[k].mac == eris[k].mac && record.spec[k].isPrimary == eris[k].isPrimary
         && record.spec[k].card == eris[k].card && record.spec[k].queuePair == eris[k].queuePair
  }
}
