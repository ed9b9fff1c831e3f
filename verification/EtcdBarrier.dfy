/**
 The counting barrier of _EtcdDistUtils, on a linearizable store: one key per group and round, which
 counts the ranks up in sorted order and is put back to 0 by the root. Each step is one call of a rank
 or one operation on the store; a failed compare-and-swap and a fruitless read change nothing.
 */
module EtcdBarrier {
  type Rank = nat
  // A group of ranks, sorted, without repetitions.
  type Group = seq<Rank>

  predicate IsGroup(g: Group) {
    g != [] && forall i, j :: 0 <= i < j < |g| ==> g[i] < g[j]
  }

  datatype Phase = FanIn | FanOut
  datatype Pc = Out | In(g: Group, ix: nat, phase: Phase)

  datatype State = State(pcs: map<Rank, Pc>, counters: map<(Rank, Group), nat>, store: map<(Group, nat), nat>) {
    function Pc(r: Rank): Pc {
      if r in pcs then pcs[r] else Out
    }

    // ops_counter: how many rounds of the group the rank has entered.
    function Entered(r: Rank, g: Group): nat {
      if (r, g) in counters then counters[(r, g)] else 0
    }

    function At(r: Rank, pc: Pc): State {
      this.(pcs := pcs[r := pc])
    }
  }

  const INITIAL := State(map[], map[], map[])

  datatype Step = Enter(r: Rank, g: Group) | Poll(r: Rank)

  predicate Enabled(s: State, step: Step) {
    match step
    case Enter(r, g) => s.Pc(r) == Out && IsGroup(g)
    case Poll(r) => s.Pc(r).In?
  }

  // client.replace: succeeds only on the expected value of an existing key.
  predicate Matches(s: State, key: (Group, nat), v: nat) {
    key in s.store && s.store[key] == v
  }

  // ranks.index(rank)
  function IndexOf(g: Group, r: Rank): (i: nat)
    requires r in g
    ensures i < |g| && g[i] == r
  {
    if g[0] == r then 0 else 1 + IndexOf(g[1..], r)
  }

  // The next store operation of rank r inside round ix of group g.
  function Attempt(s: State, r: Rank, g: Group, ix: nat, phase: Phase): State
    requires r in g
  {
    var key := (g, ix);
    if r == g[0] then
      if phase == FanIn then s.At(r, In(g, ix, FanOut)).(store := s.store[key := 1])
      else if Matches(s, key, |g|) then s.At(r, Out).(store := s.store[key := 0])
      else s
    else
      var me := IndexOf(g, r);
      if phase == FanIn then
        if Matches(s, key, me) then s.At(r, In(g, ix, FanOut)).(store := s.store[key := me + 1]) else s
      else if Matches(s, key, 0) then s.At(r, Out)
      else s
  }

  function Apply(s: State, step: Step): State
    requires Enabled(s, step)
  {
    match step
    case Enter(r, g) =>
      if r !in g then s
      else s.At(r, In(g, s.Entered(r, g), FanIn)).(counters := s.counters[(r, g) := s.Entered(r, g) + 1])
    case Poll(r) =>
      var In(g, ix, phase) := s.Pc(r);
      if r in g then Attempt(s, r, g, ix, phase) else s
  }

  // ---- Invariant ----

  // The rank has counted itself in round ix of the group.
  predicate Arrived(s: State, r: Rank, g: Group, ix: nat) {
    ix < s.Entered(r, g) && s.Pc(r) != In(g, ix, FanIn)
  }

  // The rank has returned from round ix of the group.
  predicate Left(s: State, r: Rank, g: Group, ix: nat) {
    Arrived(s, r, g, ix) && s.Pc(r) != In(g, ix, FanOut)
  }

  // Whether the key says that the rank at place i has arrived.
  predicate Counted(s: State, g: Group, ix: nat, i: nat) {
    (g, ix) in s.store && (s.store[(g, ix)] == 0 || i < s.store[(g, ix)])
  }

  // Key value k means exactly the first k sorted ranks have arrived; 0 means all have, and only then
  // has a rank left.
  ghost predicate KeyMeaning(s: State, g: Group, ix: nat)
    requires IsGroup(g)
  {
    && (forall i :: 0 <= i < |g| ==> (Arrived(s, g[i], g, ix) <==> Counted(s, g, ix, i)))
    && (forall i :: 0 <= i < |g| && Left(s, g[i], g, ix) ==> Matches(s, (g, ix), 0))
    && ((g, ix) in s.store ==> s.store[(g, ix)] <= |g|)
    && (Matches(s, (g, ix), 0) ==> Left(s, g[0], g, ix))
  }

  // A rank inside a round is inside the latest one it entered, of a group it belongs to.
  ghost predicate Inside(s: State) {
    forall r :: s.Pc(r).In? ==> IsGroup(s.Pc(r).g) && r in s.Pc(r).g && s.Entered(r, s.Pc(r).g) == s.Pc(r).ix + 1
  }

  ghost predicate Inv(s: State) {
    Inside(s) && forall g, ix :: IsGroup(g) ==> KeyMeaning(s, g, ix)
  }

  lemma InitialInv()
    ensures Inv(INITIAL)
  {
  }

  lemma IndexUnique(g: Group, i: nat)
    requires IsGroup(g) && i < |g|
    ensures g[i] in g && IndexOf(g, g[i]) == i
  {
    assert g[IndexOf(g, g[i])] == g[i];
  }

  lemma InsideKept(s: State, step: Step)
    requires Inside(s) && Enabled(s, step)
    ensures Inside(Apply(s, step))
  {
    var s' := Apply(s, step);
    forall r | s'.Pc(r).In?
      ensures IsGroup(s'.Pc(r).g) && r in s'.Pc(r).g && s'.Entered(r, s'.Pc(r).g) == s'.Pc(r).ix + 1
    {
      if r != step.r { assert s'.Pc(r) == s.Pc(r); }
      assert s.Pc(r).In? || step.Enter?;
    }
  }

  lemma MeaningKept(s: State, step: Step, g: Group, ix: nat)
    requires Inv(s) && Enabled(s, step) && IsGroup(g)
    ensures KeyMeaning(Apply(s, step), g, ix)
  {
    hide KeyMeaning;
    assert KeyMeaning(s, g, ix);
    var r := step.r;
    if step.Enter? {
      EnterKeeps(s, r, step.g, g, ix);
    } else if s.Pc(r).g == g && s.Pc(r).ix == ix {
      AttemptKeeps(s, r, g, ix, s.Pc(r).phase);
    } else {
      OtherRoundKeeps(s, r, g, ix);
    }
  }

  // What KeyMeaning depends on.
  ghost predicate SameRound(s: State, s': State, g: Group, ix: nat) {
    && ((g, ix) in s'.store <==> (g, ix) in s.store)
    && ((g, ix) in s.store ==> s'.store[(g, ix)] == s.store[(g, ix)])
    && (forall i :: 0 <= i < |g| ==> Arrived(s', g[i], g, ix) == Arrived(s, g[i], g, ix))
    && (forall i :: 0 <= i < |g| ==> Left(s', g[i], g, ix) == Left(s, g[i], g, ix))
  }

  lemma SameRoundKeeps(s: State, s': State, g: Group, ix: nat)
    requires IsGroup(g) && KeyMeaning(s, g, ix) && SameRound(s, s', g, ix)
    ensures KeyMeaning(s', g, ix)
  {
    hide Arrived, Left;
    assert forall i :: 0 <= i < |g| ==> Counted(s', g, ix, i) == Counted(s, g, ix, i);
  }

  lemma EnterKeeps(s: State, r: Rank, h: Group, g: Group, ix: nat)
    requires Enabled(s, Enter(r, h)) && IsGroup(g) && KeyMeaning(s, g, ix)
    ensures KeyMeaning(Apply(s, Enter(r, h)), g, ix)
  {
    hide KeyMeaning, IsGroup;
    var s' := Apply(s, Enter(r, h));
    assert SameRound(s, s', g, ix);
    SameRoundKeeps(s, s', g, ix);
  }

  lemma OtherRoundKeeps(s: State, r: Rank, g: Group, ix: nat)
    requires Inside(s) && s.Pc(r).In? && IsGroup(g) && KeyMeaning(s, g, ix) && (s.Pc(r).g, s.Pc(r).ix) != (g, ix)
    ensures KeyMeaning(Apply(s, Poll(r)), g, ix)
  {
    hide KeyMeaning, IsGroup;
    var s' := Apply(s, Poll(r));
    var In(h, jx, phase) := s.Pc(r);
    AttemptFrame(s, r, h, jx, phase, (g, ix));
    forall i | 0 <= i < |g|
      ensures Arrived(s', g[i], g, ix) == Arrived(s, g[i], g, ix) && Left(s', g[i], g, ix) == Left(s, g[i], g, ix)
    {
      if g[i] != r { assert s'.Pc(g[i]) == s.Pc(g[i]); }
    }
    SameRoundKeeps(s, s', g, ix);
  }

  // An attempt touches its own key and its own rank only.
  lemma AttemptFrame(s: State, r: Rank, h: Group, jx: nat, phase: Phase, key: (Group, nat))
    requires r in h && s.Pc(r) == In(h, jx, phase)
    ensures var s' := Attempt(s, r, h, jx, phase);
            && s'.counters == s.counters
            && (forall q :: q != r ==> s'.Pc(q) == s.Pc(q))
            && (s'.Pc(r) == s.Pc(r) || s'.Pc(r) == Out || s'.Pc(r) == In(h, jx, FanOut))
            && (key != (h, jx) ==> (key in s'.store <==> key in s.store))
            && (key != (h, jx) && key in s.store ==> s'.store[key] == s.store[key])
  {
  }

  // The rank whose round it is: its own step keeps the meaning of the key.
  lemma AttemptKeeps(s: State, r: Rank, g: Group, ix: nat, phase: Phase)
    requires IsGroup(g) && r in g && KeyMeaning(s, g, ix) && s.Pc(r) == In(g, ix, phase) && s.Entered(r, g) == ix + 1
    ensures KeyMeaning(Attempt(s, r, g, ix, phase), g, ix)
  {
    var s' := Attempt(s, r, g, ix, phase);
    var me := IndexOf(g, r);
    forall i | 0 <= i < |g| && g[i] == r ensures i == me { IndexUnique(g, i); }
    forall i | 0 <= i < |g| && i != me
      ensures Arrived(s', g[i], g, ix) == Arrived(s, g[i], g, ix) && Left(s', g[i], g, ix) == Left(s, g[i], g, ix)
    {
    }
    assert Arrived(s, g[me], g, ix) <==> Counted(s, g, ix, me);
    assert Arrived(s, g[0], g, ix) <==> Counted(s, g, ix, 0);
  }

  lemma InvKept(s: State, step: Step)
    requires Inv(s) && Enabled(s, step)
    ensures Inv(Apply(s, step))
  {
    hide KeyMeaning;
    InsideKept(s, step);
    forall g, ix | IsGroup(g) ensures KeyMeaning(Apply(s, step), g, ix) {
      MeaningKept(s, step, g, ix);
    }
  }

  // ---- Whole runs ----

  ghost predicate Reachable(s: State, steps: seq<Step>)
    decreases |steps|
  {
    if steps == [] then s == INITIAL
    else exists r :: ReachedBefore(r, steps) && Enabled(r, steps[|steps| - 1]) && Apply(r, steps[|steps| - 1]) == s
  }

  ghost predicate ReachedBefore(r: State, steps: seq<Step>)
    requires steps != []
    decreases |steps|, 0
  {
    Reachable(r, steps[..|steps| - 1])
  }

  lemma {:induction false} ReachableInv(s: State, steps: seq<Step>)
    requires Reachable(s, steps)
    ensures Inv(s)
    decreases |steps|
  {
    hide Inv;
    if steps == [] {
      InitialInv();
    } else {
      var n := |steps| - 1;
      var r :| ReachedBefore(r, steps) && Enabled(r, steps[n]) && Apply(r, steps[n]) == s;
      ReachableInv(r, steps[..n]);
      InvKept(r, steps[n]);
    }
  }

  /**
   Barrier safety, for any groups, rounds and interleaving: when a rank has returned from a round of a
   group, every rank of the group has entered that round.
   */
  lemma BarrierSafe(s: State, steps: seq<Step>, g: Group, ix: nat, r: Rank, other: Rank)
    requires Reachable(s, steps) && IsGroup(g) && r in g && other in g && Left(s, r, g, ix)
    ensures ix < s.Entered(other, g)
  {
    ReachableInv(s, steps);
    LeftMeansEntered(s, g, ix, r, other);
  }

  lemma LeftMeansEntered(s: State, g: Group, ix: nat, r: Rank, other: Rank)
    requires Inv(s) && IsGroup(g) && r in g && other in g && Left(s, r, g, ix)
    ensures ix < s.Entered(other, g)
  {
    assert KeyMeaning(s, g, ix);
    assert g[IndexOf(g, r)] == r && g[IndexOf(g, other)] == other;
    assert Counted(s, g, ix, IndexOf(g, other));
  }

  lemma InsideMeansNotLeft(s: State, r: Rank)
    requires s.Pc(r).In?
    ensures !Left(s, r, s.Pc(r).g, s.Pc(r).ix)
  {
    match s.Pc(r).phase
    case FanIn =>
    case FanOut =>
  }

  /**
   Ranks of a group stay together: none is ever more than one round ahead of another, and a rank that is
   not inside a round of the group is ahead of none.
   */
  lemma RoundsApart(s: State, steps: seq<Step>, g: Group, r: Rank, other: Rank)
    requires Reachable(s, steps) && IsGroup(g) && r in g && other in g
    ensures s.Entered(r, g) <= s.Entered(other, g) + 1
    ensures !(s.Pc(r).In? && s.Pc(r).g == g) ==> s.Entered(r, g) <= s.Entered(other, g)
  {
    ReachableInv(s, steps);
    var n := s.Entered(r, g);
    if s.Pc(r).In? && s.Pc(r).g == g {
      if n > 1 { LeftMeansEntered(s, g, n - 2, r, other); }
    } else if n > 0 {
      LeftMeansEntered(s, g, n - 1, r, other);
    }
  }

  // ---- Progress ----

  // What rank i still has to do in the round: arrive and leave, or leave.
  function Todo(s: State, r: Rank, g: Group, ix: nat): nat {
    if Left(s, r, g, ix) then 0 else if Arrived(s, r, g, ix) then 1 else 2
  }

  function Remaining(s: State, g: Group, ix: nat, n: nat): nat
    requires n <= |g|
  {
    if n == 0 then 0 else Remaining(s, g, ix, n - 1) + Todo(s, g[n - 1], g, ix)
  }

  // Some rank of the group is still inside the round.
  ghost predicate Pending(s: State, g: Group, ix: nat) {
    exists i :: 0 <= i < |g| && !Left(s, g[i], g, ix)
  }

  // The rank whose turn it is in a round that all ranks have entered.
  function Turn(s: State, g: Group, ix: nat, waiting: nat): nat
    requires IsGroup(g) && waiting < |g|
  {
    if (g, ix) !in s.store then 0
    else if s.store[(g, ix)] == 0 then waiting
    else if s.store[(g, ix)] < |g| then s.store[(g, ix)]
    else 0
  }

  /**
   Progress: once every rank of the group has entered a round, as long as some rank has not returned,
   there is a rank inside the round whose next store operation succeeds, and it takes from what
   remains. Timeouts aside, the round therefore ends.
   */
  lemma BarrierProgress(s: State, steps: seq<Step>, g: Group, ix: nat) returns (r: Rank)
    requires Reachable(s, steps) && IsGroup(g) && Pending(s, g, ix)
    requires forall i :: 0 <= i < |g| ==> ix < s.Entered(g[i], g)
    ensures Enabled(s, Poll(r)) && r in g && s.Pc(r).g == g && s.Pc(r).ix == ix
    ensures Remaining(Apply(s, Poll(r)), g, ix, |g|) < Remaining(s, g, ix, |g|)
  {
    ReachableInv(s, steps);
    r := ProgressFromInv(s, g, ix);
  }

  lemma ProgressFromInv(s: State, g: Group, ix: nat) returns (r: Rank)
    requires Inv(s) && IsGroup(g) && Pending(s, g, ix)
    requires forall i :: 0 <= i < |g| ==> ix < s.Entered(g[i], g)
    ensures Enabled(s, Poll(r)) && r in g && s.Pc(r).g == g && s.Pc(r).ix == ix
    ensures Remaining(Apply(s, Poll(r)), g, ix, |g|) < Remaining(s, g, ix, |g|)
  {
    assert KeyMeaning(s, g, ix);
    var i :| 0 <= i < |g| && !Left(s, g[i], g, ix);
    var k := Turn(s, g, ix, i);
    assert Arrived(s, g[k], g, ix) <==> Counted(s, g, ix, k);
    assert Arrived(s, g[0], g, ix) <==> Counted(s, g, ix, 0);
    r := g[k];
    IndexUnique(g, k);
    TurnAdvances(s, g, ix, k);
    TodoElsewhere(s, g, ix, k, |g|);
  }

  // Whose turn it is advances.
  lemma TurnAdvances(s: State, g: Group, ix: nat, k: nat)
    requires Inside(s) && IsGroup(g) && KeyMeaning(s, g, ix) && k < |g| && ix < s.Entered(g[k], g)
    requires !Left(s, g[k], g, ix) && (Matches(s, (g, ix), 0) || k == Turn(s, g, ix, k))
    ensures s.Pc(g[k]).In? && s.Pc(g[k]).g == g && s.Pc(g[k]).ix == ix
    ensures Todo(Apply(s, Poll(g[k])), g[k], g, ix) < Todo(s, g[k], g, ix)
  {
    IndexUnique(g, k);
    assert Arrived(s, g[k], g, ix) <==> Counted(s, g, ix, k);
    assert Arrived(s, g[0], g, ix) <==> Counted(s, g, ix, 0);
  }

  lemma {:induction false} TodoElsewhere(s: State, g: Group, ix: nat, k: nat, n: nat)
    requires IsGroup(g) && k < |g| && n <= |g| && Enabled(s, Poll(g[k])) && g[k] in g
    ensures var s' := Apply(s, Poll(g[k]));
            Remaining(s', g, ix, n) ==
            Remaining(s, g, ix, n) + if k < n then Todo(s', g[k], g, ix) - Todo(s, g[k], g, ix) else 0
  {
    if n > 0 {
      TodoElsewhere(s, g, ix, k, n - 1);
      if n - 1 != k {
        assert g[n - 1] != g[k];
        assert Apply(s, Poll(g[k])).Pc(g[n - 1]) == s.Pc(g[n - 1]);
      }
    }
  }

  lemma TodoNeverGrows(s: State, step: Step, r: Rank, g: Group, ix: nat)
    requires Inside(s) && Enabled(s, step)
    ensures Todo(Apply(s, step), r, g, ix) <= Todo(s, r, g, ix)
  {
    if step.Poll? {
      var In(h, jx, phase) := s.Pc(step.r);
      AttemptFrame(s, step.r, h, jx, phase, (g, ix));
    }
  }

  /** No step of any rank, in this round or elsewhere, adds to what remains. */
  lemma {:induction false} RemainingNeverGrows(s: State, step: Step, g: Group, ix: nat, n: nat)
    requires Inside(s) && Enabled(s, step) && n <= |g|
    ensures Remaining(Apply(s, step), g, ix, n) <= Remaining(s, g, ix, n)
  {
    hide Todo, Apply;
    if n > 0 {
      RemainingNeverGrows(s, step, g, ix, n - 1);
      TodoNeverGrows(s, step, g[n - 1], g, ix);
    }
  }
}
