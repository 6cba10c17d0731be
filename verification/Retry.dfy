/** Retry safety: however often SelectERIs is attempted before the device record is stored, and wherever each attempt
    fails, no more interfaces are ever created than cards were missing at the start. */
module Retry {
  import opened Prelude
  import opened EniTypes
  import opened CloudApi
  import opened Cloud
  import opened Planner
  import opened PlannerProperties
  import opened PlanExecution
  import opened Creation
  import opened SelectEris

  // ---------- The plan does not depend on listing order or on tags ----------

  ghost predicate DistinctIds(enis: seq<Eni>) {
    forall i, j :: 0 <= i < j < |enis| ==> enis[i].id != enis[j].id
  }

  /** The same to the planner: tags other than the creator's and the status play no part. */
  predicate Alike(e: Eni, f: Eni) {
    f == e.(tags := f.tags, status := f.status) && (HasCreatorTag(f) <==> HasCreatorTag(e))
  }

  ghost predicate Matched(e: Eni, enis: seq<Eni>) {
    exists k :: 0 <= k < |enis| && Alike(e, enis[k])
  }

  /** Two listings of the same interfaces, in any order, with any status and any tags other than the creator's
      changed. */
  ghost predicate SameInterfaces(a: seq<Eni>, b: seq<Eni>) {
    && DistinctIds(a) && DistinctIds(b)
    && (forall e <- a :: Matched(e, b))
    && (forall f <- b :: Matched(f, a))
  }

  lemma {:induction false} TotalSplit(a: seq<Eni>, b: seq<Eni>)
    ensures QueuePairTotal(a + b) == QueuePairTotal(a) + QueuePairTotal(b)
  {
    if a == [] {
      assert a + b == b;
    } else {
      assert (a + b)[1..] == a[1..] + b;
      TotalSplit(a[1..], b);
    }
  }

  lemma EmptyTogether(a: seq<Eni>, b: seq<Eni>)
    requires SameInterfaces(a, b)
    ensures b != [] ==> a != []
  {
    if b != [] {
      assert Matched(b[0], a);
    }
  }

  lemma TotalWithout(b: seq<Eni>, k: nat)
    requires k < |b|
    ensures QueuePairTotal(b) == QueuePairs(b[k]) + QueuePairTotal(b[..k] + b[k + 1..])
  {
    assert b == b[..k] + b[k..] && b[k..][1..] == b[k + 1..];
    TotalSplit(b[..k], b[k..]);
    TotalSplit(b[..k], b[k + 1..]);
  }

  lemma {:induction false} SameTotal(a: seq<Eni>, b: seq<Eni>)
    requires SameInterfaces(a, b)
    ensures QueuePairTotal(a) == QueuePairTotal(b)
  {
    if a == [] {
      EmptyTogether(a, b);
    } else {
      assert Matched(a[0], b);
      var k :| 0 <= k < |b| && Alike(a[0], b[k]);
      RemoveBoth(a, b, k);
      SameTotal(a[1..], b[..k] + b[k + 1..]);
      TotalWithout(b, k);
    }
  }

  lemma RemoveBoth(a: seq<Eni>, b: seq<Eni>, k: nat)
    requires SameInterfaces(a, b) && a != [] && k < |b| && Alike(a[0], b[k])
    ensures SameInterfaces(a[1..], b[..k] + b[k + 1..])
  {
    var tail, rest := a[1..], b[..k] + b[k + 1..];
    assert forall j :: 0 <= j < |rest| ==> rest[j] == if j < k then b[j] else b[j + 1];
    forall e | e in tail
      ensures Matched(e, rest)
    {
      var i :| 0 <= i < |tail| && tail[i] == e;
      assert a[i + 1] == e && a[0].id != e.id && Matched(e, b);
      var j :| 0 <= j < |b| && Alike(e, b[j]);
      assert Alike(e, if j < k then rest[j] else rest[j - 1]);
    }
    forall f | f in rest
      ensures Matched(f, tail)
    {
      var j :| 0 <= j < |rest| && rest[j] == f;
      assert f in b && b[k].id != f.id && Matched(f, a);
      var i :| 0 <= i < |a| && Alike(f, a[i]);
      assert Alike(f, tail[i - 1]);
    }
  }

  /** The same outcome: the same error, or the same cards to create for with the same share. */
  predicate SameOutcome(r: Result<Plan, PlanError>, s: Result<Plan, PlanError>) {
    match r
    case Err(e) => s == Err(e)
    case Ok(p) => s.Ok? && s.value.create == p.create && s.value.share == p.share
  }

  /** Whatever the listing order and the tags and statuses written meanwhile, planning fails with the same error or
      succeeds with the same cards to fill and the same share. */
  lemma PlanIsStable(managed: bool, a: seq<Eni>, b: seq<Eni>, limit: int, cardCount: int)
    requires SameInterfaces(a, b)
    ensures SameOutcome(PlanFor(managed, a, limit, cardCount), PlanFor(managed, b, limit, cardCount))
  {
    SameTotal(a, b);
    SameCards(managed, a, b);
    SamePrimaries(a, b);
    SamePrimaries(b, a);
    PlanDependsOn(managed, a, b, limit, cardCount);
  }

  lemma ShareDependsOn(managed: bool, a: seq<Eni>, b: seq<Eni>, limit: int, cardCount: int)
    requires QueuePairTotal(a) == QueuePairTotal(b)
    requires Cards(FirstPerCard(managed, a, {})) == Cards(FirstPerCard(managed, b, {}))
    ensures MissingCards(managed, a, limit, cardCount) == MissingCards(managed, b, limit, cardCount)
    ensures Share(managed, a, limit, cardCount) == Share(managed, b, limit, cardCount)
  {}

  lemma PlanDependsOn(managed: bool, a: seq<Eni>, b: seq<Eni>, limit: int, cardCount: int)
    requires QueuePairTotal(a) == QueuePairTotal(b)
    requires Cards(FirstPerCard(managed, a, {})) == Cards(FirstPerCard(managed, b, {}))
    requires Primaries(a) == [] <==> Primaries(b) == []
    ensures SameOutcome(PlanFor(managed, a, limit, cardCount), PlanFor(managed, b, limit, cardCount))
  {
    ShareDependsOn(managed, a, b, limit, cardCount);
    CardsEmpty(FirstPerCard(managed, a, {}));
    CardsEmpty(FirstPerCard(managed, b, {}));
    assert Conversion(managed, a, limit, cardCount) == [] <==> Conversion(managed, b, limit, cardCount) == [];
  }

  lemma SamePrimaries(a: seq<Eni>, b: seq<Eni>)
    requires forall e <- a :: Matched(e, b)
    ensures Primaries(a) != [] ==> Primaries(b) != []
  {
    PrimariesAre(a);
    PrimariesAre(b);
    if Primaries(a) != [] {
      var e := Primaries(a)[0];
      assert e in Primaries(a) && Matched(e, b);
      var k :| 0 <= k < |b| && Alike(e, b[k]);
      assert b[k] in Primaries(b);
    }
  }

  lemma SameCards(managed: bool, a: seq<Eni>, b: seq<Eni>)
    requires SameInterfaces(a, b)
    ensures Cards(FirstPerCard(managed, a, {})) == Cards(FirstPerCard(managed, b, {}))
  {
    OwnedCards(managed, a);
    OwnedCards(managed, b);
    forall c
      ensures CardOwned(managed, a, c) <==> CardOwned(managed, b, c)
    {
      OwnedElsewhere(managed, a, b, c);
      OwnedElsewhere(managed, b, a, c);
    }
  }

  lemma OwnedElsewhere(managed: bool, a: seq<Eni>, b: seq<Eni>, c: int)
    requires forall e <- a :: Matched(e, b)
    ensures CardOwned(managed, a, c) ==> CardOwned(managed, b, c)
  {
    if CardOwned(managed, a, c) {
      var e :| e in a && Eligible(managed, e) && CardIndex(e) == c;
      assert Matched(e, b);
      var k :| 0 <= k < |b| && Alike(e, b[k]);
      assert b[k] in b && Eligible(managed, b[k]);
    }
  }

  // ---------- Runs of attempts ----------

  /** What others may do between two attempts: anything, except that the instance keeps the interfaces attached to it
      and those made for it. Attached ones may get on with being attached, and any may get other tags. */
  ghost predicate Elsewhere(a: Enis, b: Enis, instance: string) {
    && (forall id <- b :: b[id].id == id)
    && AttachedTo(b, instance) == AttachedTo(a, instance) && Tagged(b, instance) == Tagged(a, instance)
    && (forall id <- AttachedTo(a, instance) :: Alike(a[id], b[id]) && StatusMoves(a[id].status, b[id].status))
    && (forall id <- Tagged(a, instance) :: SameButTags(a[id], b[id]))
  }

  /** A run of attempts: the states between them, the state each attempt began in after others had acted, the listing
      it saw, and what it returned. */
  datatype Run = Run(states: seq<Enis>, begun: seq<Enis>, listings: seq<seq<Eni>>,
                     results: seq<Result<seq<Eri>, SelectError>>)

  ghost predicate IsAttemptRun(run: Run, managed: bool, instance: string, limit: int, cardCount: int) {
    && |run.states| == |run.results| + 1 && |run.listings| == |run.begun| == |run.results|
    && forall i :: 0 <= i < |run.results| ==> IsAttempt(run, managed, instance, limit, cardCount, i)
  }

  ghost predicate IsAttempt(run: Run, managed: bool, instance: string, limit: int, cardCount: int, i: nat)
    requires i < |run.results| == |run.listings| == |run.begun| && |run.states| == |run.results| + 1
  {
    && Elsewhere(run.states[i], run.begun[i], instance)
    && SelectEffect(run.begun[i], run.states[i + 1], managed, instance, limit, cardCount, run.listings[i],
                    run.results[i])
  }

  /** No interface attached to the instance was made by the controller. */
  ghost predicate NothingMadeAttached(enis: Enis, instance: string) {
    forall id <- AttachedTo(enis, instance) :: !HasCreatorTag(enis[id])
  }

  /** At the start: keys are ids, the controller has made nothing for this instance, one page lists what is attached. */
  ghost predicate Fresh(enis: Enis, instance: string) {
    && (forall id <- enis :: enis[id].id == id)
    && NothingMadeAttached(enis, instance) && Tagged(enis, instance) == {}
    && |AttachedTo(enis, instance)| <= PAGE_SIZE
  }

  /** A listing of what is attached at the start fixes how many cards are missing. */
  ghost predicate Planned(enis: Enis, listing: seq<Eni>, managed: bool, instance: string, limit: int, cardCount: int) {
    IsPage(enis, listing, AttachedTo(enis, instance)) && PlanFor(managed, listing, limit, cardCount).Ok?
  }

  /** What has stayed since the start: the attached interfaces; and what there is more: interfaces made for the
      instance with the planned share, at most one per missing card. */
  ghost predicate Kept(start: Enis, now: Enis, instance: string, p: Plan) {
    && (forall id <- now :: now[id].id == id)
    && AttachedTo(now, instance) == AttachedTo(start, instance)
    && (forall id <- AttachedTo(start, instance) ::
        Alike(start[id], now[id]) && StatusMoves(start[id].status, now[id].status))
    && (forall id <- Tagged(now, instance) :: MadeHere(now[id], p.share, instance))
    && |Tagged(now, instance)| <= |p.create|
  }

  lemma NothingMadeYet(start: Enis, now: Enis, instance: string, p: Plan)
    requires Fresh(start, instance) && Kept(start, now, instance, p)
    ensures NothingMadeAttached(now, instance) && TagsOwn(now, instance)
    ensures Tagged(now, instance) !! AttachedTo(now, instance)
  {
    forall id | id in AttachedTo(now, instance)
      ensures !HasCreatorTag(now[id])
    {
      assert id in AttachedTo(start, instance) && Alike(start[id], now[id]);
    }
  }

  lemma ListingsAgree(start: Enis, now: Enis, instance: string, p: Plan, a: seq<Eni>, b: seq<Eni>)
    requires Fresh(start, instance) && Kept(start, now, instance, p)
    requires IsPage(start, a, AttachedTo(start, instance)) && IsPage(now, b, AttachedTo(now, instance))
    ensures SameInterfaces(a, b)
  {
    forall e | e in a
      ensures Matched(e, b)
    {
      assert Lists(b, e.id) && Alike(start[e.id], now[e.id]);
      var k :| 0 <= k < |b| && b[k].id == e.id;
      assert b[k] in b;
    }
    forall f | f in b
      ensures Matched(f, a)
    {
      assert Lists(a, f.id) && Alike(start[f.id], now[f.id]);
      var k :| 0 <= k < |a| && a[k].id == f.id;
      assert a[k] in a;
    }
  }

  lemma StartKept(start: Enis, instance: string, p: Plan)
    requires Fresh(start, instance)
    ensures Kept(start, start, instance, p)
  {}

  lemma ElsewhereKeeps(start: Enis, now: Enis, next: Enis, instance: string, p: Plan)
    requires Kept(start, now, instance, p) && Elsewhere(now, next, instance)
    ensures Kept(start, next, instance, p)
  {
    forall id | id in AttachedTo(start, instance)
      ensures Alike(start[id], next[id]) && StatusMoves(start[id].status, next[id].status)
    {
      assert Alike(start[id], now[id]) && Alike(now[id], next[id]);
    }
    forall id | id in Tagged(next, instance)
      ensures MadeHere(next[id], p.share, instance)
    {
      assert id in Tagged(now, instance) && SameButTags(now[id], next[id]);
    }
  }

  lemma AttachedUntouched(now: Enis, next: Enis, instance: string, q: Plan, r: Result<seq<Eri>, SelectError>)
    requires Attempt(now, next, instance, q, r)
    ensures AttachedTo(next, instance) == AttachedTo(now, instance)
    ensures forall id <- AttachedTo(now, instance) :: SameButTags(now[id], next[id])
  {
    forall id | id in next
      ensures id in AttachedTo(next, instance) <==> id in AttachedTo(now, instance)
    {
      assert id in now ==> SameButTags(now[id], next[id]);
    }
  }

  lemma IdsStay(now: Enis, next: Enis, instance: string, q: Plan, r: Result<seq<Eri>, SelectError>)
    requires Attempt(now, next, instance, q, r) && forall id <- now :: now[id].id == id
    ensures forall id <- next :: next[id].id == id
  {
    forall id | id in next
      ensures next[id].id == id
    {
      assert id in now ==> SameButTags(now[id], next[id]);
    }
  }

  lemma TaggedAre(now: set<EniId>, next: set<EniId>, added: set<EniId>)
    requires now <= next && next - now == added
    ensures next == now + added
  {}

  lemma MadeStay(now: Enis, next: Enis, instance: string, q: Plan, r: Result<seq<Eri>, SelectError>)
    requires Attempt(now, next, instance, q, r) && TagsOwn(now, instance)
    requires forall id <- Tagged(now, instance) :: MadeHere(now[id], q.share, instance)
    ensures forall id <- Tagged(next, instance) :: MadeHere(next[id], q.share, instance)
  {
    assert TaggedGrow(now, next, instance, q);
    forall id | id in Tagged(next, instance)
      ensures MadeHere(next[id], q.share, instance)
    {
      if id in now {
        assert SameButTags(now[id], next[id]);
        assert id !in next.Keys - now.Keys;
      }
    }
  }

  lemma AttemptKeeps(start: Enis, now: Enis, next: Enis, instance: string, p: Plan, q: Plan,
                     r: Result<seq<Eri>, SelectError>)
    requires Fresh(start, instance) && Kept(start, now, instance, p) && |p.create| <= PAGE_SIZE
    requires q.create == p.create && q.share == p.share
    requires Attempt(now, next, instance, q, r)
    ensures Kept(start, next, instance, p)
    ensures Tagged(next, instance) == Tagged(now, instance) + (next.Keys - now.Keys)
  {
    NothingMadeYet(start, now, instance, p);
    AttachedUntouched(now, next, instance, q, r);
    IdsStay(now, next, instance, q, r);
    MadeStay(now, next, instance, q, r);
    TaggedAre(Tagged(now, instance), Tagged(next, instance), next.Keys - now.Keys);
    forall id | id in AttachedTo(start, instance)
      ensures Alike(start[id], next[id]) && StatusMoves(start[id].status, next[id].status)
    {
      assert Alike(start[id], now[id]) && SameButTags(now[id], next[id]);
    }
  }

  /** The plan an attempt makes creates for the same cards, with the same share, as the plan for the start. */
  lemma SamePlan(start: Enis, now: Enis, managed: bool, instance: string, limit: int, cardCount: int, first: seq<Eni>,
                 listing: seq<Eni>)
    requires Fresh(start, instance) && Planned(start, first, managed, instance, limit, cardCount)
    requires Kept(start, now, instance, PlanFor(managed, first, limit, cardCount).value)
    requires Planned(now, listing, managed, instance, limit, cardCount)
    ensures SameInterfaces(first, listing)
    ensures
      var p, q := PlanFor(managed, first, limit, cardCount).value, PlanFor(managed, listing, limit, cardCount).value;
      q.create == p.create && q.share == p.share
  {
    ListingsAgree(start, now, instance, PlanFor(managed, first, limit, cardCount).value, first, listing);
    PlanIsStable(managed, first, listing, limit, cardCount);
  }

  lemma StepKeeps(start: Enis, now: Enis, next: Enis, managed: bool, instance: string, limit: int, cardCount: int,
                  first: seq<Eni>, listing: seq<Eni>, r: Result<seq<Eri>, SelectError>)
    requires Begins(start, managed, instance, limit, cardCount, first)
    requires Kept(start, now, instance, PlanFor(managed, first, limit, cardCount).value)
    requires SelectEffect(now, next, managed, instance, limit, cardCount, listing, r)
    ensures Kept(start, next, instance, PlanFor(managed, first, limit, cardCount).value)
    ensures Tagged(next, instance) == Tagged(now, instance) + (next.Keys - now.Keys)
  {
    if next != now || r.Ok? {
      SamePlan(start, now, managed, instance, limit, cardCount, first, listing);
      AttemptKeeps(start, now, next, instance, PlanFor(managed, first, limit, cardCount).value,
                   PlanFor(managed, listing, limit, cardCount).value, r);
    }
  }

  /** What a run takes for granted at its start: nothing made yet, and a plan for at most one page of missing cards. */
  ghost predicate Begins(start: Enis, managed: bool, instance: string, limit: int, cardCount: int, listing: seq<Eni>) {
    && Fresh(start, instance) && Planned(start, listing, managed, instance, limit, cardCount)
    && |PlanFor(managed, listing, limit, cardCount).value.create| <= PAGE_SIZE
  }

  lemma RunStep(run: Run, managed: bool, instance: string, limit: int, cardCount: int, listing: seq<Eni>, p: Plan,
                j: nat)
    requires IsAttemptRun(run, managed, instance, limit, cardCount) && j < |run.results|
    requires Begins(run.states[0], managed, instance, limit, cardCount, listing)
    requires PlanFor(managed, listing, limit, cardCount) == Ok(p) && Kept(run.states[0], run.states[j], instance, p)
    ensures Kept(run.states[0], run.begun[j], instance, p) && Kept(run.states[0], run.states[j + 1], instance, p)
    ensures Tagged(run.states[j + 1], instance) ==
      Tagged(run.states[j], instance) + (run.states[j + 1].Keys - run.begun[j].Keys)
  {
    assert IsAttempt(run, managed, instance, limit, cardCount, j);
    ElsewhereKeeps(run.states[0], run.states[j], run.begun[j], instance, p);
    StepKeeps(run.states[0], run.begun[j], run.states[j + 1], managed, instance, limit, cardCount, listing,
              run.listings[j], run.results[j]);
  }

  lemma RunNext(run: Run, managed: bool, instance: string, limit: int, cardCount: int, listing: seq<Eni>, p: Plan,
                i: nat)
    requires IsAttemptRun(run, managed, instance, limit, cardCount) && 0 < i <= |run.results|
    requires Begins(run.states[0], managed, instance, limit, cardCount, listing)
    requires PlanFor(managed, listing, limit, cardCount) == Ok(p) && Kept(run.states[0], run.states[i - 1], instance, p)
    ensures Kept(run.states[0], run.states[i], instance, p)
  {
    RunStep(run, managed, instance, limit, cardCount, listing, p, i - 1);
  }

  lemma {:induction false} RunKeeps(run: Run, managed: bool, instance: string, limit: int, cardCount: int,
                                    listing: seq<Eni>, p: Plan, i: nat)
    requires IsAttemptRun(run, managed, instance, limit, cardCount) && i <= |run.results|
    requires Begins(run.states[0], managed, instance, limit, cardCount, listing)
    requires PlanFor(managed, listing, limit, cardCount) == Ok(p)
    ensures Kept(run.states[0], run.states[i], instance, p)
  {
    if i == 0 {
      StartKept(run.states[0], instance, p);
    } else {
      RunKeeps(run, managed, instance, limit, cardCount, listing, p, i - 1);
      RunNext(run, managed, instance, limit, cardCount, listing, p, i);
    }
  }

  lemma BegunKeeps(run: Run, managed: bool, instance: string, limit: int, cardCount: int, listing: seq<Eni>, i: nat)
    requires IsAttemptRun(run, managed, instance, limit, cardCount) && i < |run.results|
    requires Begins(run.states[0], managed, instance, limit, cardCount, listing)
    ensures Kept(run.states[0], run.begun[i], instance, PlanFor(managed, listing, limit, cardCount).value)
    ensures Tagged(run.states[i + 1], instance) ==
      Tagged(run.states[i], instance) + (run.states[i + 1].Keys - run.begun[i].Keys)
  {
    var p := PlanFor(managed, listing, limit, cardCount).value;
    RunKeeps(run, managed, instance, limit, cardCount, listing, p, i);
    RunStep(run, managed, instance, limit, cardCount, listing, p, i);
  }

  /** Every interface that an attempt before position `i` made. */
  ghost function MadeBefore(run: Run, i: nat): set<EniId>
    requires i < |run.states| == |run.begun| + 1
  {
    if i == 0 then {} else MadeBefore(run, i - 1) + (run.states[i].Keys - run.begun[i - 1].Keys)
  }

  lemma TaggedNext(run: Run, managed: bool, instance: string, limit: int, cardCount: int, listing: seq<Eni>, i: nat)
    requires IsAttemptRun(run, managed, instance, limit, cardCount) && 0 < i <= |run.results|
    requires Begins(run.states[0], managed, instance, limit, cardCount, listing)
    ensures
      Tagged(run.states[i], instance) ==
      Tagged(run.states[i - 1], instance) + (run.states[i].Keys - run.begun[i - 1].Keys)
  {
    BegunKeeps(run, managed, instance, limit, cardCount, listing, i - 1);
  }

  lemma {:induction false} MadeAreTheTagged(run: Run, managed: bool, instance: string, limit: int, cardCount: int,
                                            listing: seq<Eni>, i: nat)
    requires IsAttemptRun(run, managed, instance, limit, cardCount) && i <= |run.results|
    requires Begins(run.states[0], managed, instance, limit, cardCount, listing)
    ensures MadeBefore(run, i) == Tagged(run.states[i], instance)
  {
    if i > 0 {
      MadeAreTheTagged(run, managed, instance, limit, cardCount, listing, i - 1);
      TaggedNext(run, managed, instance, limit, cardCount, listing, i);
    }
  }

  /** Over every run of attempts, each failing at any call (even one the cloud carried out) or completing without the
      device record being stored, with others acting in between: the interfaces made so far are never more than the
      cards missing at the start, every one carries the same share, and together with what was attached they fit the
      queue-pair limit. */
  lemma RetrySafety(run: Run, managed: bool, instance: string, limit: int, cardCount: int, listing: seq<Eni>, i: nat)
    requires IsAttemptRun(run, managed, instance, limit, cardCount) && i <= |run.results|
    requires Begins(run.states[0], managed, instance, limit, cardCount, listing)
    ensures
      var p := PlanFor(managed, listing, limit, cardCount).value;
      var made := MadeBefore(run, i);
      && made == Tagged(run.states[i], instance) && |made| <= |p.create|
      && (forall id <- made :: MadeHere(run.states[i][id], p.share, instance))
      && (QueuePairTotal(listing) <= limit ==> QueuePairTotal(listing) + |made| * p.share <= limit)
  {
    RunKeeps(run, managed, instance, limit, cardCount, listing, PlanFor(managed, listing, limit, cardCount).value, i);
    MadeAreTheTagged(run, managed, instance, limit, cardCount, listing, i);
    if QueuePairTotal(listing) <= limit {
      MadeFit(managed, listing, limit, cardCount, |MadeBefore(run, i)|);
    }
  }

  lemma MadeFit(managed: bool, listing: seq<Eni>, limit: int, cardCount: int, n: nat)
    requires PlanFor(managed, listing, limit, cardCount).Ok? && QueuePairTotal(listing) <= limit
    requires n <= |PlanFor(managed, listing, limit, cardCount).value.create|
    ensures QueuePairTotal(listing) + n * PlanFor(managed, listing, limit, cardCount).value.share <= limit
  {
    CreateListLength(managed, listing, limit, cardCount);
    BudgetHolds(managed, listing, limit, cardCount, n,
                QueuePairTotal(listing) + n * PlanFor(managed, listing, limit, cardCount).value.share);
  }

  lemma CreateListLength(managed: bool, listing: seq<Eni>, limit: int, cardCount: int)
    requires PlanFor(managed, listing, limit, cardCount).Ok?
    ensures
      |PlanFor(managed, listing, limit, cardCount).value.create| <= |MissingCards(managed, listing, limit, cardCount)|
  {
    PlanParts(managed, listing, limit, cardCount);
    ZeroFirst(Cards(FirstPerCard(managed, listing, {})), cardCount);
    FewerFrom(Cards(FirstPerCard(managed, listing, {})), cardCount);
  }

  lemma FewerFrom(taken: set<int>, cardCount: int)
    ensures |Missing(taken, 1, cardCount)| <= |Missing(taken, 0, cardCount)|
  {}

  /** One entry per card, in order, naming exactly these interfaces, each once. */
  ghost predicate EachOnce(eris: seq<Eri>, cards: seq<int>, ids: set<EniId>) {
    OnePerCard(eris, cards) && forall id :: id in ids <==> Names(eris, id)
  }

  /** The list ends with one entry per missing card, naming exactly the interfaces made for the instance. An entry
      carries the share if its interface was made by an earlier attempt, and 0 if this one made it. */
  ghost predicate Completed(before: Enis, now: Enis, instance: string, p: Plan, eris: seq<Eri>) {
    && |eris| >= |p.create|
    && EachOnce(eris[|eris| - |p.create|..], p.create, Tagged(now, instance))
    && Tagged(now, instance) !! AttachedTo(now, instance)
    && forall e <- eris[|eris| - |p.create|..] :: e.queuePair == if e.id in before then p.share else 0
  }

  /** The first complete attempt, like every later one, returns for each missing card exactly one of the interfaces
      ever made, each once, and none of them is attached. */
  lemma CompleteAttempt(run: Run, managed: bool, instance: string, limit: int, cardCount: int, listing: seq<Eni>,
                        i: nat)
    requires IsAttemptRun(run, managed, instance, limit, cardCount) && i < |run.results| && run.results[i].Ok?
    requires Begins(run.states[0], managed, instance, limit, cardCount, listing)
    ensures
      Completed(run.begun[i], run.states[i + 1], instance, PlanFor(managed, listing, limit, cardCount).value,
                run.results[i].value)
  {
    BegunKeeps(run, managed, instance, limit, cardCount, listing, i);
    assert IsAttempt(run, managed, instance, limit, cardCount, i);
    CompletesPlan(run.states[0], run.begun[i], run.states[i + 1], managed, instance, limit, cardCount, listing,
                  run.listings[i], run.results[i]);
  }

  lemma CompletesPlan(start: Enis, now: Enis, next: Enis, managed: bool, instance: string, limit: int, cardCount: int,
                      first: seq<Eni>, listing: seq<Eni>, r: Result<seq<Eri>, SelectError>)
    requires Begins(start, managed, instance, limit, cardCount, first)
    requires Kept(start, now, instance, PlanFor(managed, first, limit, cardCount).value)
    requires SelectEffect(now, next, managed, instance, limit, cardCount, listing, r) && r.Ok?
    ensures Completed(now, next, instance, PlanFor(managed, first, limit, cardCount).value, r.value)
  {
    var p, q := PlanFor(managed, first, limit, cardCount).value, PlanFor(managed, listing, limit, cardCount).value;
    SamePlan(start, now, managed, instance, limit, cardCount, first, listing);
    AttemptKeeps(start, now, next, instance, p, q, r);
    NothingMadeYet(start, now, instance, p);
    NothingMadeYet(start, next, instance, p);
    MadeAreTagged(now, next, instance, q, r.value);
    PlanParts(managed, first, limit, cardCount);
    QueuePairsCarried(now, next, instance, q, r.value);
    assert |r.value| - |p.create| == |q.eris|;
  }

  lemma MadeAreTagged(before: Enis, after: Enis, instance: string, q: Plan, eris: seq<Eri>)
    requires Delivered(before, after, instance, q, eris) && TagsOwn(before, instance)
    requires |Tagged(before, instance)| <= |q.create| <= PAGE_SIZE
    ensures EachOnce(eris[|q.eris|..], q.create, Tagged(after, instance))
  {
    var made := eris[|q.eris|..];
    forall id | Names(made, id)
      ensures id in Tagged(after, instance)
    {
      var k :| 0 <= k < |made| && made[k].id == id;
      assert made[k] in made;
    }
  }

  lemma QueuePairsCarried(before: Enis, after: Enis, instance: string, q: Plan, eris: seq<Eri>)
    requires Delivered(before, after, instance, q, eris) && q.share >= 0
    requires forall id <- Tagged(before, instance) :: MadeHere(before[id], q.share, instance)
    ensures forall e <- eris[|q.eris|..] :: e.queuePair == if e.id in before then q.share else 0
  {
    var made := eris[|q.eris|..];
    var page: seq<Eni> :| ReusedThenMade(before, page, instance, q.create, q.share, made);
    var reused := Reused(page, instance, q.share, q.create);
    forall k | 0 <= k < |made|
      ensures made[k].queuePair == if made[k].id in before then q.share else 0
    {
      if k < |reused| {
        assert made[k] == reused[k] == ReusedEri(page[k], instance, q.share, q.create[k]);
        assert page[k] in page && MadeHere(before[page[k].id], q.share, instance);
      }
    }
  }
}
