/** The network interface (ENI) as the cloud describes it, and the RDMA interface (ERI) the controller plans. */
module EniTypes {
  import opened Prelude

  type EniId = string

  datatype TrafficMode = Standard | HighPerformance

  datatype Status = Available | Attaching | InUse | OtherStatus

  datatype Eni = Eni(
    id: EniId,
    isPrimary: bool,
    mac: string,
    mode: TrafficMode,
    queuePairs: Option<int>,
    card: Option<int>,
    instance: Option<string>,
    status: Option<Status>,
    tags: map<string, string>)

  datatype Eri = Eri(id: EniId, isPrimary: bool, mac: string, instance: string, card: int, queuePair: int)

  const CREATOR_KEY := "creator"
  const CREATOR_VALUE := "alibabacloud-erdma-controller"
  const INSTANCE_KEY := "instance-id"
  const EXCLUDED_KEY := "terway.alibabacloud.com/excluded"
  const EXCLUDED_VALUE := "true"

  predicate IsRdma(e: Eni) {
    e.mode.HighPerformance?
  }

  predicate HasCreatorTag(e: Eni) {
    CREATOR_KEY in e.tags && e.tags[CREATOR_KEY] == CREATOR_VALUE
  }

  predicate Owns(managed: bool, e: Eni) {
    managed || HasCreatorTag(e)
  }

  /** Every interface is owned if all are managed; else those that carry the creator tag. */
  lemma OwnedMeans(managed: bool, e: Eni)
    ensures Owns(managed, e) <==>
      managed || ("creator" in e.tags && e.tags["creator"] == "alibabacloud-erdma-controller")
  {}

  function CardIndex(e: Eni): int {
    e.card.GetOr(0)
  }

  function ToEri(e: Eni, preferred: int): Eri {
    Eri(e.id, e.isPrimary, e.mac, e.instance.GetOr(""), CardIndex(e),
        if e.queuePairs.Some? && e.queuePairs.value > 0 then e.queuePairs.value else preferred)
  }
}
