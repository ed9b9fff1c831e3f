/**
 The collectives end: every step that changes anything leaves less to do, and while a rank has calls left
 there is such a step.
 */
module EtcdProgress {
  import B = EtcdBarrier
  import opened EtcdCollectives

  // ---- What is left to do ----

  // The steps of a rank from the start of a stage to the end of its call, with some to spare.
  ghost function StageWork(call: Call, n: nat, r: Rank, stage: nat): nat
    requires Proper(call, n) && r < n
    decreases Barriers(call) + 1 - stage
  {
    if stage > Barriers(call) then 0 else |Actions(call, n, r, stage)| + 3 + StageWork(call, n, r, stage + 1)
  }

  ghost function LaterWork(calls: seq<Call>, n: nat, r: Rank, p: nat): nat
    requires ProperCalls(calls, n) && r < n
    decreases |calls| - p
  {
    if p >= |calls| then 0 else StageWork(calls[p], n, r, 0) + LaterWork(calls, n, r, p + 1)
  }

  // How far into the barrier at the end of its stage a rank is.
  function Inside(pc: B.Pc): nat {
    match pc
    case Out => 0
    case In(_, _, FanIn) => 1
    case In(_, _, FanOut) => 2
  }

  ghost function RankWork(calls: seq<Call>, n: nat, s: State, r: Rank): int
    requires ProperCalls(calls, n) && r < n
  {
    var p := s.P(r);
    if p.call >= |calls| then 0
    else StageWork(calls[p.call], n, r, p.stage) + LaterWork(calls, n, r, p.call + 1) - p.done - Inside(s.bar.Pc(r))
  }

  // What the first k ranks have left to do.
  ghost function Work(calls: seq<Call>, n: nat, s: State, k: nat): int
    requires ProperCalls(calls, n) && k <= n
  {
    if k == 0 then 0 else Work(calls, n, s, k - 1) + RankWork(calls, n, s, k - 1)
  }

  lemma {:induction false} WorkIsNat(calls: seq<Call>, n: nat, s: State, k: nat)
    requires ProperCalls(calls, n) && k <= n && forall r :: 0 <= r < n ==> Placed(calls, n, s, r)
    ensures Work(calls, n, s, k) >= 0
    decreases k
  {
    hide Actions, LaterWork;
    if k > 0 {
      WorkIsNat(calls, n, s, k - 1);
      assert Placed(calls, n, s, k - 1);
    }
  }

  // Only rank r has moved, and it has less to do.
  lemma {:induction false} OneMoved(calls: seq<Call>, n: nat, s: State, s': State, r: Rank, k: nat)
    requires ProperCalls(calls, n) && r < n && k <= n
    requires forall q :: q != r ==> s'.P(q) == s.P(q) && s'.bar.Pc(q) == s.bar.Pc(q)
    requires RankWork(calls, n, s', r) < RankWork(calls, n, s, r)
    ensures Work(calls, n, s', k) <= Work(calls, n, s, k) && (r < k ==> Work(calls, n, s', k) < Work(calls, n, s, k))
    decreases k
  {
    hide StageWork, LaterWork;
    if k > 0 { OneMoved(calls, n, s, s', r, k - 1); }
  }

  lemma ActShrinks(calls: seq<Call>, n: nat, s: State, r: Rank)
    requires ProperCalls(calls, n) && Enabled(calls, n, s, Act(r)) && Apply(calls, n, s, Act(r)) != s
    ensures RankWork(calls, n, Apply(calls, n, s, Act(r)), r) < RankWork(calls, n, s, r)
    ensures var s' := Apply(calls, n, s, Act(r));
            forall q :: q != r ==> s'.P(q) == s.P(q) && s'.bar.Pc(q) == s.bar.Pc(q)
  {
    hide StageWork, LaterWork, ReduceRead, Actions;
  }

  lemma EnterShrinks(calls: seq<Call>, n: nat, s: State, r: Rank)
    requires ProperCalls(calls, n) && Enabled(calls, n, s, EnterBarrier(r))
    ensures RankWork(calls, n, Apply(calls, n, s, EnterBarrier(r)), r) < RankWork(calls, n, s, r)
    ensures var s' := Apply(calls, n, s, EnterBarrier(r));
            forall q :: q != r ==> s'.P(q) == s.P(q) && s'.bar.Pc(q) == s.bar.Pc(q)
  {
    hide StageWork, LaterWork, Actions;
    WorldIsGroup(n);
  }

  // A poll that changes the store or the rank's place moves the rank on.
  lemma PollMoves(bar: B.State, r: Rank)
    requires B.Inside(bar) && bar.Pc(r).In? && B.Apply(bar, B.Poll(r)) != bar
    ensures var bar' := B.Apply(bar, B.Poll(r));
            && (bar.Pc(r).phase == B.FanIn ==> bar'.Pc(r) == B.In(bar.Pc(r).g, bar.Pc(r).ix, B.FanOut))
            && (bar.Pc(r).phase == B.FanOut ==> bar'.Pc(r) == B.Out)
  {
  }

  lemma PollShrinks(calls: seq<Call>, n: nat, s: State, r: Rank)
    requires ProperCalls(calls, n) && Inv(calls, n, s) && Enabled(calls, n, s, PollBarrier(r))
    requires Apply(calls, n, s, PollBarrier(r)) != s
    ensures RankWork(calls, n, Apply(calls, n, s, PollBarrier(r)), r) < RankWork(calls, n, s, r)
    ensures var s' := Apply(calls, n, s, PollBarrier(r));
            forall q :: q != r ==> s'.P(q) == s.P(q) && s'.bar.Pc(q) == s.bar.Pc(q)
  {
    hide LaterWork, ReadRight, StoreRight, Actions, B.Apply;
    assert Placed(calls, n, s, r);
    PollFrame(s.bar, r, World(n));
    PollMoves(s.bar, r);
  }

  lemma FinishShrinks(calls: seq<Call>, n: nat, s: State, r: Rank)
    requires ProperCalls(calls, n) && Enabled(calls, n, s, Finish(r))
    ensures RankWork(calls, n, Apply(calls, n, s, Finish(r)), r) < RankWork(calls, n, s, r)
    ensures var s' := Apply(calls, n, s, Finish(r));
            forall q :: q != r ==> s'.P(q) == s.P(q) && s'.bar.Pc(q) == s.bar.Pc(q)
  {
    hide Actions;
  }

  /**
   Every step that changes the state, of any rank, takes from the work that is left, which is never
   negative: a run has only so many of them.
   */
  lemma StepShrinks(calls: seq<Call>, n: nat, s: State, step: Step)
    requires ProperCalls(calls, n) && Inv(calls, n, s) && Enabled(calls, n, s, step) && Apply(calls, n, s, step) != s
    ensures 0 <= Work(calls, n, Apply(calls, n, s, step), n) < Work(calls, n, s, n)
  {
    hide Inv, Apply, Work, RankWork, Enabled;
    var s', r := Apply(calls, n, s, step), step.r;
    StepKeeps(calls, n, s, step);
    WorkIsNat(calls, n, s', n);
    ShrinksAndFrames(calls, n, s, step);
    OneMoved(calls, n, s, s', r, n);
  }

  lemma ShrinksAndFrames(calls: seq<Call>, n: nat, s: State, step: Step)
    requires ProperCalls(calls, n) && Inv(calls, n, s) && Enabled(calls, n, s, step) && Apply(calls, n, s, step) != s
    ensures step.r < n && RankWork(calls, n, Apply(calls, n, s, step), step.r) < RankWork(calls, n, s, step.r)
    ensures var s' := Apply(calls, n, s, step);
            forall q :: q != step.r ==> s'.P(q) == s.P(q) && s'.bar.Pc(q) == s.bar.Pc(q)
  {
    hide Inv, Apply, RankWork, Actions;
    match step
    case Act(r) => ActShrinks(calls, n, s, r);
    case EnterBarrier(r) => EnterShrinks(calls, n, s, r);
    case PollBarrier(r) => PollShrinks(calls, n, s, r);
    case Finish(r) => FinishShrinks(calls, n, s, r);
  }

  lemma StepKeeps(calls: seq<Call>, n: nat, s: State, step: Step)
    requires ProperCalls(calls, n) && Inv(calls, n, s) && Enabled(calls, n, s, step)
    ensures forall r :: 0 <= r < n ==> Placed(calls, n, Apply(calls, n, s, step), r)
  {
    hide Apply, Actions, Placed, ReadRight, StoreRight;
    match step
    case Act(r) => ActStep(calls, n, s, r);
    case EnterBarrier(r) => EnterStep(calls, n, s, r);
    case PollBarrier(r) => PollStep(calls, n, s, r);
    case Finish(r) => FinishStep(calls, n, s, r);
  }

  // ---- Some step is always possible ----

  // Among the ranks below k that are inside a barrier, one in the earliest round.
  lemma {:induction false} Earliest(calls: seq<Call>, n: nat, s: State, r: Rank, k: nat) returns (m: Rank)
    requires r < n && s.bar.Pc(r).In? && k <= n
    ensures m < n && s.bar.Pc(m).In? && s.bar.Pc(m).ix <= s.bar.Pc(r).ix
    ensures forall q :: 0 <= q < k && s.bar.Pc(q).In? ==> s.bar.Pc(m).ix <= s.bar.Pc(q).ix
    decreases k
  {
    if k == 0 {
      m := r;
    } else {
      m := Earliest(calls, n, s, r, k - 1);
      if s.bar.Pc(k - 1).In? && s.bar.Pc(k - 1).ix < s.bar.Pc(m).ix { m := k - 1; }
    }
  }

  // When every rank that has calls left is inside a barrier, the earliest round can go on.
  lemma BarrierGoesOn(calls: seq<Call>, n: nat, s: State, m: Rank) returns (r: Rank)
    requires ProperCalls(calls, n) && Inv(calls, n, s) && m < n && s.bar.Pc(m).In?
    requires forall q :: 0 <= q < n && s.P(q).call < |calls| ==> s.bar.Pc(q).In? && s.bar.Pc(m).ix <= s.bar.Pc(q).ix
    ensures r < n && s.bar.Pc(r).In? && B.Apply(s.bar, B.Poll(r)) != s.bar
  {
    hide B.Inv, ReadRight, StoreRight, Actions, B.Apply;
    WorldIsGroup(n);
    var g, ix := World(n), s.bar.Pc(m).ix;
    assert Placed(calls, n, s, m);
    forall i | 0 <= i < |g| ensures ix < s.bar.Entered(g[i], g) {
      assert Placed(calls, n, s, i);
      if s.P(i).call == |calls| { EpochGrows(calls, s.P(m).call, |calls|); }
    }
    assert s.bar.Pc(m) == B.In(g, ix, s.bar.Pc(m).phase);
    B.InsideMeansNotLeft(s.bar, m);
    assert g[m] == m;
    r := B.ProgressFromInv(s.bar, g, ix);
    assert g[B.IndexOf(g, r)] == r;
  }

  /**
   No deadlock: as long as some rank has calls left, some rank can take a step that leaves less to do.
   The ranks at rest can always go on, and when all others are inside barriers the earliest one moves.
   */
  lemma CollectivesProgress(calls: seq<Call>, n: nat, s: State, steps: seq<Step>, r: Rank) returns (step: Step)
    requires ProperCalls(calls, n) && Reachable(calls, n, s, steps) && r < n && s.P(r).call < |calls|
    ensures Enabled(calls, n, s, step) && Work(calls, n, Apply(calls, n, s, step), n) < Work(calls, n, s, n)
  {
    hide Reachable, B.Inv, StoreRight, Actions, ReadRight, Work;
    ReachableInv(calls, n, s, steps);
    if q :| 0 <= q < n && s.P(q).call < |calls| && s.bar.Pc(q) == B.Out {
      assert Placed(calls, n, s, q);
      if s.P(q).done < |Todo(calls, n, s, q)| {
        step := Act(q);
        if Todo(calls, n, s, q)[s.P(q).done].Get? { ReadsNeverWait(calls, n, s, steps, q); }
        assert Apply(calls, n, s, step).P(q).done == s.P(q).done + 1;
      } else if s.P(q).stage < Barriers(calls[s.P(q).call]) {
        step := EnterBarrier(q);
        WorldIsGroup(n);
        assert Apply(calls, n, s, step).bar.Pc(q).In?;
      } else {
        step := Finish(q);
        assert Apply(calls, n, s, step).P(q).call == s.P(q).call + 1;
      }
    } else {
      assert s.bar.Pc(r).In?;
      var m := Earliest(calls, n, s, r, n);
      var q := BarrierGoesOn(calls, n, s, m);
      assert Placed(calls, n, s, q);
      step := PollBarrier(q);
      assert Apply(calls, n, s, step).bar != s.bar;
    }
    assert Apply(calls, n, s, step) != s;
    StepShrinks(calls, n, s, step);
  }
}
