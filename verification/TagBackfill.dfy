/** NodeReconciler.backfillEriTags: any number of calls claim, tag and roll back over one shared map. */
module TagBackfill {
  import opened EniTypes

  /** One call: what it has claimed and not yet settled. A finished call holds nothing. */
  datatype Call = Claiming(pending: seq<EniId>) | RollingBack(rest: seq<EniId>) | Finished

  function Held(c: Call): multiset<EniId> {
    match c
    case Claiming(pending) => multiset(pending)
    case RollingBack(rest) => multiset(rest)
    case Finished => multiset{}
  }

  /** The shared marks, the calls so far, and the interfaces whose tagging was confirmed, once per successful call. */
  datatype State = State(marks: set<EniId>, calls: seq<Call>, confirmed: multiset<EniId>)

  /** How often an interface is held over all calls. */
  function HeldCount(calls: seq<Call>, id: EniId): nat {
    if calls == [] then 0 else HeldCount(calls[..|calls| - 1], id) + Held(calls[|calls| - 1])[id]
  }

  // ---------- The atomic steps ----------

  datatype Action =
    | Start
    | LoadOrStore(call: nat, id: EniId)
    | Tag(call: nat, ok: bool)
    | Delete(call: nat)

  ghost predicate Step(s: State, a: Action, t: State) {
    match a
    case Start => t == s.(calls := s.calls + [Claiming([])])
    case LoadOrStore(c, id) =>
      && c < |s.calls| && s.calls[c].Claiming?
      && t == if id in s.marks then s
              else s.(marks := s.marks + {id}, calls := s.calls[c := Claiming(s.calls[c].pending + [id])])
    case Tag(c, ok) =>
      && c < |s.calls| && s.calls[c].Claiming?
      && t == if ok then s.(calls := s.calls[c := Finished], confirmed := s.confirmed + multiset(s.calls[c].pending))
              else s.(calls := s.calls[c := RollingBack(s.calls[c].pending)])
    case Delete(c) =>
      && c < |s.calls| && s.calls[c].RollingBack? && s.calls[c].rest != []
      && t == s.(marks := s.marks - {s.calls[c].rest[0]}, calls := s.calls[c := RollingBack(s.calls[c].rest[1..])])
  }

  // ---------- The conservation law ----------

  /** Every mark is accounted for exactly once: held by one call or confirmed by one successful call. */
  ghost predicate Balanced(s: State) {
    forall id :: HeldCount(s.calls, id) + s.confirmed[id] == if id in s.marks then 1 else 0
  }

  lemma {:induction false} HeldUpdate(calls: seq<Call>, i: nat, c: Call, id: EniId)
    requires i < |calls|
    ensures HeldCount(calls[i := c], id) == HeldCount(calls, id) - Held(calls[i])[id] + Held(c)[id]
    decreases |calls|
  {
    var n := |calls| - 1;
    if i < n {
      HeldUpdate(calls[..n], i, c, id);
      assert calls[i := c][..n] == calls[..n][i := c];
    } else {
      assert calls[i := c][..n] == calls[..n];
    }
  }

  lemma {:induction false} HeldIsPart(calls: seq<Call>, i: nat, id: EniId)
    requires i < |calls|
    ensures Held(calls[i])[id] <= HeldCount(calls, id)
  {
    if i < |calls| - 1 {
      HeldIsPart(calls[..|calls| - 1], i, id);
    }
  }

  lemma {:induction false} TwoHeldArePart(calls: seq<Call>, i: nat, j: nat, id: EniId)
    requires i < j < |calls|
    ensures Held(calls[i])[id] + Held(calls[j])[id] <= HeldCount(calls, id)
  {
    if j < |calls| - 1 {
      TwoHeldArePart(calls[..|calls| - 1], i, j, id);
    } else {
      HeldIsPart(calls[..|calls| - 1], i, id);
    }
  }

  lemma {:induction false} SomeoneHolds(calls: seq<Call>, id: EniId)
    requires HeldCount(calls, id) > 0
    ensures exists a :: 0 <= a < |calls| && id in Held(calls[a])
  {
    var n := |calls| - 1;
    if id !in Held(calls[n]) {
      SomeoneHolds(calls[..n], id);
      var a :| 0 <= a < n && id in Held(calls[..n][a]);
      assert calls[a] == calls[..n][a];
    }
  }

  lemma StepKeepsBalance(s: State, a: Action, t: State)
    requires Balanced(s) && Step(s, a, t)
    ensures Balanced(t)
  {
    forall id
      ensures HeldCount(t.calls, id) + t.confirmed[id] == if id in t.marks then 1 else 0
    {
      assert HeldCount(s.calls, id) + s.confirmed[id] == if id in s.marks then 1 else 0;
      match a
      case Start =>
        assert t.calls[..|s.calls|] == s.calls;
      case LoadOrStore(c, x) =>
        if x !in s.marks {
          HeldUpdate(s.calls, c, Claiming(s.calls[c].pending + [x]), id);
        }
      case Tag(c, ok) =>
        HeldUpdate(s.calls, c, if ok then Finished else RollingBack(s.calls[c].pending), id);
      case Delete(c) =>
        var rest := s.calls[c].rest;
        assert rest == [rest[0]] + rest[1..];
        HeldUpdate(s.calls, c, RollingBack(rest[1..]), id);
        HeldIsPart(s.calls, c, id);
    }
  }

  // ---------- Runs ----------

  const INITIAL := State({}, [], multiset{})

  ghost predicate IsRun(run: seq<State>, actions: seq<Action>) {
    && |run| == |actions| + 1 && run[0] == INITIAL
    && forall i :: 0 <= i < |actions| ==> StepAt(run, actions, i)
  }

  ghost predicate StepAt(run: seq<State>, actions: seq<Action>, i: nat)
    requires i < |actions| && |run| == |actions| + 1
  {
    Step(run[i], actions[i], run[i + 1])
  }

  lemma {:induction false} RunBalanced(run: seq<State>, actions: seq<Action>, i: nat)
    requires IsRun(run, actions) && i < |run|
    ensures Balanced(run[i])
  {
    if i > 0 {
      RunBalanced(run, actions, i - 1);
      assert StepAt(run, actions, i - 1);
      StepKeepsBalance(run[i - 1], actions[i - 1], run[i]);
    }
  }

  /** In every interleaving: no interface is held twice, in one call or in two; every mark is either confirmed or
      held by some call, never both; and each interface is confirmed by at most one successful call. */
  lemma BackfillProtocol(run: seq<State>, actions: seq<Action>, i: nat)
    requires IsRun(run, actions) && i < |run|
    ensures forall a, b :: 0 <= a < b < |run[i].calls| ==> Held(run[i].calls[a]) !! Held(run[i].calls[b])
    ensures forall a, id :: 0 <= a < |run[i].calls| ==> Held(run[i].calls[a])[id] + run[i].confirmed[id] <= 1
    ensures forall id :: id in run[i].marks <==>
      (id in run[i].confirmed || exists a :: 0 <= a < |run[i].calls| && id in Held(run[i].calls[a]))
    ensures forall id :: run[i].confirmed[id] <= 1
  {
    RunBalanced(run, actions, i);
    BalancedMeans(run[i]);
  }

  lemma BalancedMeans(s: State)
    requires Balanced(s)
    ensures forall a, b :: 0 <= a < b < |s.calls| ==> Held(s.calls[a]) !! Held(s.calls[b])
    ensures forall a, id :: 0 <= a < |s.calls| ==> Held(s.calls[a])[id] + s.confirmed[id] <= 1
    ensures forall id :: s.confirmed[id] <= 1
    ensures forall id :: id in s.marks <==>
      (id in s.confirmed || exists a :: 0 <= a < |s.calls| && id in Held(s.calls[a]))
  {
    forall a, b | 0 <= a < b < |s.calls|
      ensures Held(s.calls[a]) !! Held(s.calls[b])
    {
      forall id
        ensures id !in Held(s.calls[a]) || id !in Held(s.calls[b])
      {
        TwoHeldArePart(s.calls, a, b, id);
        assert HeldCount(s.calls, id) <= 1;
      }
    }
    forall a, id | 0 <= a < |s.calls|
      ensures Held(s.calls[a])[id] + s.confirmed[id] <= 1
    {
      HeldIsPart(s.calls, a, id);
    }
    forall id
      ensures s.confirmed[id] <= 1
      ensures id in s.marks <==> (id in s.confirmed || exists a :: 0 <= a < |s.calls| && id in Held(s.calls[a]))
    {
      assert HeldCount(s.calls, id) + s.confirmed[id] == if id in s.marks then 1 else 0;
      if HeldCount(s.calls, id) > 0 {
        SomeoneHolds(s.calls, id);
      }
      if a :| 0 <= a < |s.calls| && id in Held(s.calls[a]) {
        HeldIsPart(s.calls, a, id);
      }
    }
  }

  lemma ConfirmedOnce(run: seq<State>, actions: seq<Action>)
    requires IsRun(run, actions)
    ensures forall id :: run[|actions|].confirmed[id] <= 1
  {
    BackfillProtocol(run, actions, |actions|);
  }

  /** A rollback removes only a mark this call made: not confirmed, and held by no other call. */
  lemma RollbackIsPrivate(run: seq<State>, actions: seq<Action>, i: nat)
    requires IsRun(run, actions) && i < |actions| && actions[i].Delete?
    ensures
      var s, t, c := run[i], run[i + 1], actions[i].call;
      && c < |s.calls| && s.calls[c].RollingBack? && s.calls[c].rest != []
      && s.marks - t.marks == {s.calls[c].rest[0]} && t.marks <= s.marks
      && s.calls[c].rest[0] !in s.confirmed
      && forall b :: 0 <= b < |s.calls| && b != c ==> s.calls[c].rest[0] !in Held(s.calls[b])
  {
    BackfillProtocol(run, actions, i);
    assert StepAt(run, actions, i);
    var s, c := run[i], actions[i].call;
    assert s.calls[c].rest[0] in Held(s.calls[c]);
  }

  // ---------- What one call did in a run ----------

  /** One LoadOrStore: the id, and whether it found a mark. */
  datatype Look = Look(id: EniId, loaded: bool)

  datatype Deed = Looked(look: Look) | Tagged(ids: seq<EniId>, ok: bool) | Deleted(id: EniId)

  /** The deed of call `me` in an action taken in state `s`: whether an id was marked is read off that state. */
  function DeedIn(s: State, a: Action, me: nat): seq<Deed> {
    match a
    case Start => []
    case LoadOrStore(c, id) => if c == me then [Looked(Look(id, id in s.marks))] else []
    case Tag(c, ok) =>
      if c == me && c < |s.calls| && s.calls[c].Claiming? then [Tagged(s.calls[c].pending, ok)] else []
    case Delete(c) =>
      if c == me && c < |s.calls| && s.calls[c].RollingBack? && s.calls[c].rest != [] then [Deleted(s.calls[c].rest[0])]
      else []
  }

  function Deeds(run: seq<State>, actions: seq<Action>, me: nat): seq<Deed>
    requires |run| == |actions| + 1
  {
    if actions == [] then []
    else
      var n := |actions| - 1;
      Deeds(run[..n + 1], actions[..n], me) + DeedIn(run[n], actions[n], me)
  }

  lemma RunSnoc(run: seq<State>, actions: seq<Action>, a: Action, t: State)
    requires IsRun(run, actions) && Step(run[|actions|], a, t)
    ensures IsRun(run + [t], actions + [a])
  {
    var run', actions' := run + [t], actions + [a];
    forall i | 0 <= i < |actions'|
      ensures StepAt(run', actions', i)
    {
      if i < |actions| {
        assert StepAt(run, actions, i);
      }
    }
  }

  lemma RunPrefix(run: seq<State>, actions: seq<Action>)
    requires IsRun(run, actions) && actions != []
    ensures IsRun(run[..|actions|], actions[..|actions| - 1])
  {
    var run', actions' := run[..|actions|], actions[..|actions| - 1];
    forall i | 0 <= i < |actions'|
      ensures StepAt(run', actions', i)
    {
      assert StepAt(run, actions, i);
    }
  }

  lemma DeedsSnoc(run: seq<State>, actions: seq<Action>, a: Action, t: State, me: nat)
    requires |run| == |actions| + 1
    ensures Deeds(run + [t], actions + [a], me) == Deeds(run, actions, me) + DeedIn(run[|actions|], a, me)
  {
    assert (run + [t])[..|actions| + 1] == run && (actions + [a])[..|actions|] == actions;
  }

  /** A call that has not started has done nothing. */
  lemma {:induction false} NoDeedsYet(run: seq<State>, actions: seq<Action>, me: nat)
    requires IsRun(run, actions) && |run[|actions|].calls| <= me
    ensures Deeds(run, actions, me) == []
  {
    if actions != [] {
      var n := |actions| - 1;
      assert StepAt(run, actions, n);
      RunPrefix(run, actions);
      NoDeedsYet(run[..n + 1], actions[..n], me);
    }
  }

  function LookedAt(looks: seq<Look>): seq<EniId> {
    seq(|looks|, k requires 0 <= k < |looks| => looks[k].id)
  }

  /** The ids that were not marked when looked at, in order. */
  function Unloaded(looks: seq<Look>): seq<EniId> {
    if looks == [] then []
    else
      var before, last := Unloaded(looks[..|looks| - 1]), looks[|looks| - 1];
      if last.loaded then before else before + [last.id]
  }

  function NonEmpty(devices: seq<EniId>): seq<EniId> {
    if devices == [] then []
    else
      var before, last := NonEmpty(devices[..|devices| - 1]), devices[|devices| - 1];
      if last == "" then before else before + [last]
  }

  function Looking(looks: seq<Look>): seq<Deed> {
    seq(|looks|, k requires 0 <= k < |looks| => Looked(looks[k]))
  }

  function Deleting(ids: seq<EniId>): seq<Deed> {
    seq(|ids|, k requires 0 <= k < |ids| => Deleted(ids[k]))
  }

  /** What follows the looks: nothing if nothing was claimed, else one tag call, and the deletes where it failed. */
  function Settling(claimed: seq<EniId>, ok: bool): seq<Deed> {
    if claimed == [] then [] else [Tagged(claimed, ok)] + if ok then [] else Deleting(claimed)
  }

  lemma DeletingSnoc(before: seq<Deed>, ids: seq<EniId>, i: nat)
    requires i < |ids|
    ensures before + Deleting(ids[..i + 1]) == before + Deleting(ids[..i]) + [Deleted(ids[i])]
  {
    assert Deleting(ids[..i + 1]) == Deleting(ids[..i]) + [Deleted(ids[i])];
  }

  lemma SettlingFailed(before: seq<Deed>, claimed: seq<EniId>)
    requires claimed != []
    ensures before + [Tagged(claimed, false)] + Deleting(claimed) == before + Settling(claimed, false)
  {
    var tag := [Tagged(claimed, false)];
    assert before + tag + Deleting(claimed) == before + (tag + Deleting(claimed));
  }

  lemma LookedAtSnoc(looks: seq<Look>, look: Look)
    ensures LookedAt(looks + [look]) == LookedAt(looks) + [look.id]
    ensures Looking(looks + [look]) == Looking(looks) + [Looked(look)]
    ensures Unloaded(looks + [look]) == if look.loaded then Unloaded(looks) else Unloaded(looks) + [look.id]
  {
    assert (looks + [look])[..|looks|] == looks;
  }

  /** What is looked at: every id that is not empty as often as it is there, none that is empty, in order. */
  lemma {:induction false} NonEmptyMeans(devices: seq<EniId>)
    ensures "" !in NonEmpty(devices)
    ensures forall id :: id != "" ==> multiset(NonEmpty(devices))[id] == multiset(devices)[id]
  {
    if devices != [] {
      NonEmptyMeans(devices[..|devices| - 1]);
      assert devices == devices[..|devices| - 1] + [devices[|devices| - 1]];
    }
  }

  lemma {:induction false} NonEmptyJoins(a: seq<EniId>, b: seq<EniId>)
    ensures NonEmpty(a + b) == NonEmpty(a) + NonEmpty(b)
  {
    if b == [] {
      assert a + b == a;
    } else {
      NonEmptyJoins(a, b[..|b| - 1]);
      assert (a + b)[..|a + b| - 1] == a + b[..|b| - 1];
    }
  }

  lemma NonEmptySnoc(devices: seq<EniId>, i: nat)
    requires i < |devices|
    ensures
      NonEmpty(devices[..i + 1]) ==
      if devices[i] == "" then NonEmpty(devices[..i]) else NonEmpty(devices[..i]) + [devices[i]]
  {
    assert devices[..i + 1][..i] == devices[..i];
  }

  // ---------- The Go code over the shared map, with other calls in between ----------

  /** The map, and the run of atomic steps that all calls together have made of it. */
  class TaggedENIs {
    var marks: set<EniId>
    ghost var run: seq<State>
    ghost var actions: seq<Action>

    constructor ()
      ensures Valid() && run == [INITIAL] && actions == []
    {
      marks, run, actions := {}, [INITIAL], [];
    }

    ghost predicate Valid() reads this {
      IsRun(run, actions) && run[|actions|].marks == marks
    }

    ghost function Now(): State reads this
      requires Valid()
    {
      run[|actions|]
    }

    ghost function DeedsOf(me: nat): seq<Deed> reads this
      requires Valid()
    {
      Deeds(run, actions, me)
    }

    /** Other calls take any steps. The body does nothing; callers know only the contract. */
    method Interference(ghost me: nat)
      requires Valid() && me < |Now().calls|
      modifies this
      ensures Valid() && old(run) <= run && old(actions) <= actions
      ensures DeedsOf(me) == old(DeedsOf(me))
      ensures me < |Now().calls| && Now().calls[me] == old(Now().calls[me])
    {}

    ghost method Record(a: Action, t: State)
      requires IsRun(run, actions) && Step(run[|actions|], a, t) && t.marks == marks
      modifies `run, `actions
      ensures Valid() && run == old(run) + [t] && actions == old(actions) + [a]
      ensures forall me :: DeedsOf(me) == Deeds(old(run), old(actions), me) + DeedIn(old(run[|actions|]), a, me)
    {
      RunSnoc(run, actions, a, t);
      forall me
        ensures Deeds(run + [t], actions + [a], me) == Deeds(run, actions, me) + DeedIn(run[|actions|], a, me)
      {
        DeedsSnoc(run, actions, a, t, me);
      }
      run, actions := run + [t], actions + [a];
    }

    method LoadOrStore(ghost me: nat, id: EniId) returns (loaded: bool)
      requires Valid() && me < |Now().calls| && Now().calls[me].Claiming?
      modifies this
      ensures Valid() && old(run) <= run && old(actions) <= actions
      ensures Step(old(Now()), Action.LoadOrStore(me, id), Now()) && (loaded <==> id in old(marks))
      ensures DeedsOf(me) == old(DeedsOf(me)) + [Looked(Look(id, loaded))]
    {
      ghost var s := Now();
      loaded := id in marks;
      if !loaded {
        marks := marks + {id};
      }
      ghost var claim := Claiming(s.calls[me].pending + [id]);
      Record(Action.LoadOrStore(me, id), if loaded then s else s.(marks := marks, calls := s.calls[me := claim]));
    }

    method EnsureEriTags(ghost me: nat, ids: seq<EniId>) returns (ok: bool)
      requires Valid() && me < |Now().calls| && Now().calls[me] == Claiming(ids)
      modifies `run, `actions
      ensures Valid() && old(run) <= run && old(actions) <= actions
      ensures Step(old(Now()), Tag(me, ok), Now()) && DeedsOf(me) == old(DeedsOf(me)) + [Tagged(ids, ok)]
    {
      ok := *;
      ghost var s := Now();
      ghost var pending := s.calls[me].pending;
      Record(Tag(me, ok),
             if ok then s.(calls := s.calls[me := Finished], confirmed := s.confirmed + multiset(pending))
             else s.(calls := s.calls[me := RollingBack(pending)]));
    }

    method Delete(ghost me: nat, id: EniId)
      requires Valid() && me < |Now().calls| && Now().calls[me].RollingBack?
      requires Now().calls[me].rest != [] && Now().calls[me].rest[0] == id
      modifies this
      ensures Valid() && old(run) <= run && old(actions) <= actions
      ensures Step(old(Now()), Action.Delete(me), Now()) && DeedsOf(me) == old(DeedsOf(me)) + [Deleted(id)]
    {
      ghost var s := Now();
      marks := marks - {id};
      Record(Action.Delete(me), s.(marks := marks, calls := s.calls[me := RollingBack(s.calls[me].rest[1..])]));
    }

    /** `devices` are the ids of all devices of all records, in order. As a call of its own in the run of all calls, it
        looks at every id that is not empty, in order, and claims exactly those it found unmarked; if it claimed any,
        it makes one tag call, and gives every claim back, in order, where that fails. When it ends it holds nothing,
        and what it tagged is confirmed exactly once. */
    method BackfillEriTags(devices: seq<EniId>) returns (ghost looks: seq<Look>, ghost claimed: seq<EniId>, ok: bool)
      requires Valid()
      modifies this
      ensures Valid() && old(run) <= run && old(actions) <= actions
      ensures DeedsOf(|old(Now().calls)|) == Looking(looks) + Settling(claimed, ok)
      ensures "" !in LookedAt(looks) && forall id :: id != "" ==> multiset(LookedAt(looks))[id] == multiset(devices)[id]
      ensures LookedAt(looks) == NonEmpty(devices) && claimed == Unloaded(looks) && (claimed == [] ==> ok)
      ensures |Now().calls| > |old(Now().calls)| && Held(Now().calls[|old(Now().calls)|]) == multiset{}
      ensures ok ==> forall id <- claimed :: Now().confirmed[id] == 1
    {
      ghost var me := |Now().calls|;
      NoDeedsYet(run, actions, me);
      NonEmptyMeans(devices);
      Record(Start, Now().(calls := Now().calls + [Claiming([])]));
      var pending;
      pending, looks := Claim(me, devices);
      claimed := pending;
      ok := Settle(me, pending);
      ConfirmedOnce(run, actions);
    }

    /** The tag call, if anything was claimed, and the rollback if it fails. */
    method Settle(ghost me: nat, pending: seq<EniId>) returns (ok: bool)
      requires Valid() && me < |Now().calls| && Now().calls[me] == Claiming(pending)
      modifies this
      ensures Valid() && old(run) <= run && old(actions) <= actions && (pending == [] ==> ok)
      ensures DeedsOf(me) == old(DeedsOf(me)) + Settling(pending, ok)
      ensures me < |Now().calls| && Held(Now().calls[me]) == multiset{}
      ensures ok ==> forall id <- pending :: id in Now().confirmed
    {
      if |pending| == 0 {
        return true;
      }
      ghost var before := DeedsOf(me);
      ok := TagAll(me, pending);
      if !ok {
        RollBack(me, pending);
        SettlingFailed(before, pending);
      }
    }

    /** The tag call, other calls going on before it. */
    method TagAll(ghost me: nat, pending: seq<EniId>) returns (ok: bool)
      requires Valid() && me < |Now().calls| && Now().calls[me] == Claiming(pending)
      modifies this
      ensures Valid() && old(run) <= run && old(actions) <= actions && me < |Now().calls|
      ensures DeedsOf(me) == old(DeedsOf(me)) + [Tagged(pending, ok)]
      ensures Now().calls[me] == if ok then Finished else RollingBack(pending)
      ensures ok ==> forall id <- pending :: id in Now().confirmed
    {
      Interference(me);
      ok := EnsureEriTags(me, pending);
    }

    /** Give back every mark of the claim, other calls going on meanwhile. */
    method RollBack(ghost me: nat, pending: seq<EniId>)
      requires Valid() && me < |Now().calls| && Now().calls[me] == RollingBack(pending)
      modifies this
      ensures Valid() && old(run) <= run && old(actions) <= actions
      ensures me < |Now().calls| && Now().calls[me] == RollingBack([])
      ensures DeedsOf(me) == old(DeedsOf(me)) + Deleting(pending)
    {
      ghost var before := DeedsOf(me);
      for i := 0 to |pending|
        invariant Valid() && old(run) <= run && old(actions) <= actions
        invariant me < |Now().calls| && Now().calls[me] == RollingBack(pending[i..])
        invariant DeedsOf(me) == before + Deleting(pending[..i])
      {
        DeletingSnoc(before, pending, i);
        DeleteOne(me, pending[i]);
        assert pending[i..][1..] == pending[i + 1..];
      }
      assert pending[..|pending|] == pending;
    }

    method DeleteOne(ghost me: nat, id: EniId)
      requires Valid() && me < |Now().calls| && Now().calls[me].RollingBack?
      requires Now().calls[me].rest != [] && Now().calls[me].rest[0] == id
      modifies this
      ensures Valid() && old(run) <= run && old(actions) <= actions && me < |Now().calls|
      ensures Now().calls[me] == RollingBack(old(Now().calls[me].rest)[1..])
      ensures DeedsOf(me) == old(DeedsOf(me)) + [Deleted(id)]
    {
      Interference(me);
      Delete(me, id);
    }

    /** Look at one id that is not empty, with other calls in between, and claim it if it is unmarked. */
    method ClaimOne(ghost me: nat, id: EniId) returns (loaded: bool)
      requires Valid() && me < |Now().calls| && Now().calls[me].Claiming?
      modifies this
      ensures Valid() && old(run) <= run && old(actions) <= actions
      ensures DeedsOf(me) == old(DeedsOf(me)) + [Looked(Look(id, loaded))]
      ensures me < |Now().calls|
      ensures
        Now().calls[me] ==
        if loaded then old(Now().calls[me]) else Claiming(old(Now().calls[me].pending) + [id])
    {
      Interference(me);
      loaded := LoadOrStore(me, id);
    }

    method Claim(ghost me: nat, devices: seq<EniId>) returns (pending: seq<EniId>, ghost looks: seq<Look>)
      requires Valid() && me < |Now().calls| && Now().calls[me] == Claiming([]) && DeedsOf(me) == []
      modifies this
      ensures Valid() && old(run) <= run && old(actions) <= actions
      ensures me < |Now().calls| && Now().calls[me] == Claiming(pending)
      ensures DeedsOf(me) == Looking(looks) && LookedAt(looks) == NonEmpty(devices) && pending == Unloaded(looks)
    {
      pending, looks := [], [];
      for i := 0 to |devices|
        invariant Valid() && old(run) <= run && old(actions) <= actions
        invariant me < |Now().calls| && Now().calls[me] == Claiming(pending) && DeedsOf(me) == Looking(looks)
        invariant LookedAt(looks) == NonEmpty(devices[..i]) && pending == Unloaded(looks)
      {
        NonEmptySnoc(devices, i);
        if devices[i] == "" {
          continue;
        }
        var loaded := ClaimOne(me, devices[i]);
        LookedAtSnoc(looks, Look(devices[i], loaded));
        looks := looks + [Look(devices[i], loaded)];
        if loaded {
          continue;
        }
        pending := pending + [devices[i]];
      }
      assert devices[..|devices|] == devices;
    }
  }
}
