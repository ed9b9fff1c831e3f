/**
 allgather_obj, alltoall_obj and all_reduce over the store, with the world barrier between their
 stages. All ranks issue the same sequence of collectives, each with its own inputs; the ranks'
 store operations interleave freely, within and across calls.
 */
module EtcdCollectives {
  import B = EtcdBarrier
  import opened Reduction

  type Rank = nat

  datatype Value = Obj(x: int) | Nums(xs: seq<real>)

  // One collective; objs[r] and vals[r] are what rank r passes.
  datatype Call =
    | Barrier
    | AllGather(objs: seq<Value>)
    | AllToAll(sends: seq<seq<Value>>)
    | AllReduce(vals: seq<seq<real>>, op: ReduceOp, root: Rank)

  ghost predicate Proper(call: Call, n: nat) {
    match call
    case Barrier => true
    case AllGather(objs) => |objs| == n
    case AllToAll(sends) => |sends| == n && forall r :: 0 <= r < n ==> |sends[r]| == n
    case AllReduce(vals, _, root) => |vals| == n && root < n && forall r :: 0 <= r < n ==> |vals[r]| == |vals[0]|
  }

  // ---- Keys ----

  datatype Kind = KBarrier | KGather | KToAll | KReduce
  datatype Slot = From(r: Rank) | FromTo(r: Rank, d: Rank) | Result
  datatype Key = Key(kind: Kind, ix: nat, slot: Slot)

  function KindOf(call: Call): Kind {
    match call
    case Barrier => KBarrier
    case AllGather(_) => KGather
    case AllToAll(_) => KToAll
    case AllReduce(_, _, _) => KReduce
  }

  // ops_counter: how many calls of the kind came before call p.
  function KindIx(calls: seq<Call>, p: nat, kind: Kind): nat
    requires p <= |calls|
  {
    if p == 0 then 0 else KindIx(calls, p - 1, kind) + if KindOf(calls[p - 1]) == kind then 1 else 0
  }

  function KeyOf(calls: seq<Call>, p: nat, slot: Slot): Key
    requires p < |calls|
  {
    Key(KindOf(calls[p]), KindIx(calls, p, KindOf(calls[p])), slot)
  }

  lemma {:induction false} KindIxGrows(calls: seq<Call>, p: nat, q: nat, kind: Kind)
    requires p <= q <= |calls|
    ensures KindIx(calls, p, kind) <= KindIx(calls, q, kind)
    decreases q
  {
    if p < q { KindIxGrows(calls, p, q - 1, kind); }
  }

  /** Every call has keys of its own. */
  lemma KeyUnique(calls: seq<Call>, p: nat, slot: Slot, q: nat, slot': Slot)
    requires p < |calls| && q < |calls| && KeyOf(calls, p, slot) == KeyOf(calls, q, slot')
    ensures p == q && slot == slot'
  {
    var kind := KindOf(calls[p]);
    if p < q { KindIxGrows(calls, p + 1, q, kind); } else if q < p { KindIxGrows(calls, q + 1, p, kind); }
  }

  // What the root computes from the values it read.
  function ReduceRead(op: ReduceOp, got: seq<Value>): Value {
    if (forall i :: 0 <= i < |got| ==> got[i].Nums?) then
      var rows := seq(|got|, i requires 0 <= i < |got| && got[i].Nums? => got[i].xs);
      if Rectangular(rows) then Nums(Reduce(op, rows)) else Obj(0)
    else Obj(0)
  }

  // ---- The program of one rank ----

  datatype Action = Put(slot: Slot, v: Value) | PutReduced | Get(slot: Slot)

  // The number of barriers in a call; its stages are what lies between them.
  function Barriers(call: Call): nat {
    match call
    case Barrier => 1
    case AllGather(_) => 1
    case AllToAll(_) => 2
    case AllReduce(_, _, _) => 3
  }

  function GetFromAll(n: nat): (acts: seq<Action>)
    ensures |acts| == n && forall d :: 0 <= d < n ==> acts[d] == Get(From(d))
  {
    seq(n, d requires 0 <= d => Get(From(d)))
  }

  // What rank r does in a stage of a call.
  ghost function Actions(call: Call, n: nat, r: Rank, stage: nat): (acts: seq<Action>)
    requires Proper(call, n) && r < n
  {
    match call
    case Barrier => []
    case AllGather(objs) =>
      if stage == 0 then [Put(From(r), objs[r])] else GetFromAll(n)
    case AllToAll(sends) =>
      if stage == 0 then []
      else if stage == 1 then seq(n, d requires 0 <= d < n => Put(FromTo(r, d), sends[r][d]))
      else seq(n, q requires 0 <= q => Get(FromTo(q, r)))
    case AllReduce(vals, op, root) =>
      if stage == 0 then []
      else if stage == 1 then [Put(From(r), Nums(vals[r]))]
      else if stage == 2 then (if r == root then GetFromAll(n) + [PutReduced] else [])
      else [Get(Result)]
  }

  // ---- What each slot is for ----

  predicate SlotOf(call: Call, n: nat, slot: Slot) {
    match call
    case Barrier => false
    case AllGather(_) => slot.From? && slot.r < n
    case AllToAll(_) => slot.FromTo? && slot.r < n && slot.d < n
    case AllReduce(_, _, _) => slot.Result? || (slot.From? && slot.r < n)
  }

  // The value a slot is for: what its writer was given, or the reduction of all inputs.
  ghost function Meant(call: Call, n: nat, slot: Slot): Value
    requires Proper(call, n) && SlotOf(call, n, slot) && n > 0
  {
    match call
    case AllGather(objs) => objs[slot.r]
    case AllToAll(sends) => sends[slot.r][slot.d]
    case AllReduce(vals, op, _) => if slot.Result? then Nums(Reduce(op, vals)) else Nums(vals[slot.r])
  }

  function Writer(call: Call, slot: Slot): Rank {
    if slot.Result? then (if call.AllReduce? then call.root else 0) else slot.r
  }

  // The stage and the place in it where the writer puts the slot.
  function WrittenIn(call: Call, slot: Slot): nat {
    if call.AllGather? then 0 else if slot.Result? then 2 else 1
  }

  function WrittenAt(n: nat, slot: Slot): nat {
    match slot
    case From(_) => 0
    case FromTo(_, d) => d
    case Result => n
  }

  // What the call is to return to rank r.
  ghost function Expected(call: Call, n: nat, r: Rank): seq<Value>
    requires Proper(call, n) && r < n
  {
    match call
    case Barrier => []
    case AllGather(objs) => objs
    case AllToAll(sends) => seq(n, q requires 0 <= q < n => sends[q][r])
    case AllReduce(vals, op, _) => [Nums(Reduce(op, vals))]
  }

  // ---- The machine ----

  // A rank's progress: the call, the stage of it, the actions done in the stage, the values read in
  // it, and what earlier calls returned.
  datatype Progress = Progress(call: nat, stage: nat, done: nat, got: seq<Value>, results: seq<seq<Value>>)

  datatype State = State(bar: B.State, data: map<Key, Value>, prog: map<Rank, Progress>) {
    function P(r: Rank): Progress {
      if r in prog then prog[r] else Progress(0, 0, 0, [], [])
    }

    function With(r: Rank, p: Progress): State {
      this.(prog := prog[r := p])
    }
  }

  const INITIAL := State(B.INITIAL, map[], map[])

  function World(n: nat): (g: B.Group)
    ensures |g| == n && forall i :: 0 <= i < n ==> g[i] == i
  {
    seq(n, i requires 0 <= i => i)
  }

  datatype Step = Act(r: Rank) | EnterBarrier(r: Rank) | PollBarrier(r: Rank) | Finish(r: Rank)

  ghost predicate ProperCalls(calls: seq<Call>, n: nat) {
    n > 0 && forall p :: 0 <= p < |calls| ==> Proper(calls[p], n)
  }

  ghost function Todo(calls: seq<Call>, n: nat, s: State, r: Rank): seq<Action>
    requires ProperCalls(calls, n) && r < n && s.P(r).call < |calls|
  {
    Actions(calls[s.P(r).call], n, r, s.P(r).stage)
  }

  ghost predicate Enabled(calls: seq<Call>, n: nat, s: State, step: Step)
    requires ProperCalls(calls, n)
  {
    var r := step.r;
    r < n && s.P(r).call < |calls| &&
    match step
    case Act(_) => s.bar.Pc(r) == B.Out && s.P(r).done < |Todo(calls, n, s, r)|
    case EnterBarrier(_) =>
      s.bar.Pc(r) == B.Out && s.P(r).done == |Todo(calls, n, s, r)| && s.P(r).stage < Barriers(calls[s.P(r).call])
    case PollBarrier(_) => s.bar.Pc(r).In?
    case Finish(_) =>
      s.bar.Pc(r) == B.Out && s.P(r).done == |Todo(calls, n, s, r)| && s.P(r).stage == Barriers(calls[s.P(r).call])
  }

  // One store operation. Reading a key that is not there yet changes nothing.
  ghost function Perform(calls: seq<Call>, n: nat, s: State, r: Rank, a: Action): State
    requires s.P(r).call < |calls|
  {
    var p := s.P(r);
    match a
    case Put(slot, v) => s.With(r, p.(done := p.done + 1)).(data := s.data[KeyOf(calls, p.call, slot) := v])
    case PutReduced =>
      var op := if calls[p.call].AllReduce? then calls[p.call].op else SUM;
      s.With(r, p.(done := p.done + 1)).(data := s.data[KeyOf(calls, p.call, Result) := ReduceRead(op, p.got)])
    case Get(slot) =>
      var key := KeyOf(calls, p.call, slot);
      if key in s.data then s.With(r, p.(done := p.done + 1, got := p.got + [s.data[key]])) else s
  }

  ghost function Apply(calls: seq<Call>, n: nat, s: State, step: Step): State
    requires ProperCalls(calls, n) && Enabled(calls, n, s, step)
  {
    var r := step.r;
    var p := s.P(r);
    match step
    case Act(_) => Perform(calls, n, s, r, Todo(calls, n, s, r)[p.done])
    case EnterBarrier(_) => WorldIsGroup(n); s.(bar := B.Apply(s.bar, B.Enter(r, World(n))))
    case PollBarrier(_) =>
      var bar := B.Apply(s.bar, B.Poll(r));
      if bar.Pc(r) == B.Out then s.With(r, p.(stage := p.stage + 1, done := 0, got := [])).(bar := bar)
      else s.(bar := bar)
    case Finish(_) => s.With(r, Progress(p.call + 1, 0, 0, [], p.results + [p.got]))
  }

  lemma WorldIsGroup(n: nat)
    requires n > 0
    ensures B.IsGroup(World(n)) && forall r :: 0 <= r < n ==> r in World(n)
  {
    forall r | 0 <= r < n ensures r in World(n) { assert World(n)[r] == r; }
  }

  // ---- Invariant ----

  // The number of barriers before call p.
  function Epoch(calls: seq<Call>, p: nat): nat
    requires p <= |calls|
  {
    if p == 0 then 0 else Epoch(calls, p - 1) + Barriers(calls[p - 1])
  }

  lemma {:induction false} EpochGrows(calls: seq<Call>, p: nat, q: nat)
    requires p < q <= |calls|
    ensures Epoch(calls, p) + Barriers(calls[p]) <= Epoch(calls, q)
    decreases q
  {
    if p < q - 1 { EpochGrows(calls, p, q - 1); }
  }

  // The values rank r reads with its first `done` actions of a stage.
  ghost function Wanted(call: Call, n: nat, r: Rank, stage: nat, done: nat): seq<Value>
    requires Proper(call, n) && n > 0 && r < n && done <= |Actions(call, n, r, stage)|
  {
    if done == 0 then []
    else
      var a := Actions(call, n, r, stage)[done - 1];
      Wanted(call, n, r, stage, done - 1) + if a.Get? && SlotOf(call, n, a.slot) then [Meant(call, n, a.slot)] else []
  }

  // The rank is past action k of a stage of call p.
  predicate Passed(pr: Progress, p: nat, stage: nat, k: nat) {
    pr.call > p || (pr.call == p && (pr.stage > stage || (pr.stage == stage && pr.done > k)))
  }

  // Where the rank is: at rest, or inside the barrier that ends its stage.
  ghost predicate Placed(calls: seq<Call>, n: nat, s: State, r: Rank)
    requires ProperCalls(calls, n) && r < n
  {
    var p := s.P(r);
    && p.call <= |calls|
    && (p.call == |calls| ==> p.stage == 0 && p.done == 0 && s.bar.Pc(r) == B.Out)
    && (p.call < |calls| ==> p.stage <= Barriers(calls[p.call]) && p.done <= |Todo(calls, n, s, r)|)
    && (s.bar.Pc(r).In? ==>
          && p.call < |calls| && p.stage < Barriers(calls[p.call]) && p.done == |Todo(calls, n, s, r)|
          && s.bar.Pc(r).g == World(n) && s.bar.Pc(r).ix == Epoch(calls, p.call) + p.stage)
    && s.bar.Entered(r, World(n)) == Epoch(calls, p.call) + p.stage + if s.bar.Pc(r).In? then 1 else 0
  }

  // What the rank has read and returned is right.
  ghost predicate ReadRight(calls: seq<Call>, n: nat, s: State, r: Rank)
    requires ProperCalls(calls, n) && r < n && Placed(calls, n, s, r)
  {
    var p := s.P(r);
    && p.got == (if p.call < |calls| then Wanted(calls[p.call], n, r, p.stage, p.done) else [])
    && |p.results| == p.call
    && forall q :: 0 <= q < p.call ==> p.results[q] == Expected(calls[q], n, r)
  }

  // A key holds what its slot is for, and is there once its writer is past it.
  ghost predicate StoreRight(calls: seq<Call>, n: nat, s: State, p: nat, slot: Slot)
    requires ProperCalls(calls, n) && p < |calls| && SlotOf(calls[p], n, slot)
  {
    var key := KeyOf(calls, p, slot);
    && (key in s.data ==> s.data[key] == Meant(calls[p], n, slot))
    && (Passed(s.P(Writer(calls[p], slot)), p, WrittenIn(calls[p], slot), WrittenAt(n, slot)) ==> key in s.data)
  }

  ghost predicate Inv(calls: seq<Call>, n: nat, s: State)
    requires ProperCalls(calls, n)
  {
    && B.Inv(s.bar)
    && (forall r :: 0 <= r < n ==> Placed(calls, n, s, r) && ReadRight(calls, n, s, r))
    && (forall p, slot :: 0 <= p < |calls| && SlotOf(calls[p], n, slot) ==> StoreRight(calls, n, s, p, slot))
  }

  lemma InitialInv(calls: seq<Call>, n: nat)
    requires ProperCalls(calls, n)
    ensures Inv(calls, n, INITIAL)
  {
    B.InitialInv();
  }

  // ---- Slots and actions ----

  /** Each slot is put by one action of one rank, with the value it is for. */
  lemma SlotAction(call: Call, n: nat, slot: Slot)
    requires Proper(call, n) && n > 0 && SlotOf(call, n, slot)
    ensures var w, st, k := Writer(call, slot), WrittenIn(call, slot), WrittenAt(n, slot);
            && w < n && st < Barriers(call) && k < |Actions(call, n, w, st)|
            && Actions(call, n, w, st)[k] == (if slot.Result? then PutReduced else Put(slot, Meant(call, n, slot)))
  {
  }

  /** A rank puts only its own slots, in place, and reads only slots written one stage earlier. */
  lemma ActionSlot(call: Call, n: nat, r: Rank, stage: nat, k: nat)
    requires Proper(call, n) && n > 0 && r < n && stage <= Barriers(call) && k < |Actions(call, n, r, stage)|
    ensures var a := Actions(call, n, r, stage)[k];
            match a
            case Put(slot, v) =>
              && SlotOf(call, n, slot) && Writer(call, slot) == r && WrittenIn(call, slot) == stage
              && WrittenAt(n, slot) == k && v == Meant(call, n, slot)
            case PutReduced => call.AllReduce? && r == call.root && stage == 2 && k == n
            case Get(slot) => SlotOf(call, n, slot) && WrittenIn(call, slot) + 1 == stage
  {
  }

  // ---- Reads find their keys ----

  // A rank that has entered the barrier that ends a stage is past every action of the stage.
  lemma EnteredMeansPassed(calls: seq<Call>, n: nat, s: State, w: Rank, p: nat, stage: nat, k: nat)
    requires ProperCalls(calls, n) && w < n && Placed(calls, n, s, w) && p < |calls| && stage < Barriers(calls[p])
    requires Epoch(calls, p) + stage < s.bar.Entered(w, World(n)) && k < |Actions(calls[p], n, w, stage)|
    ensures Passed(s.P(w), p, stage, k)
  {
    var c := s.P(w).call;
    if c < p { EpochGrows(calls, c, p); }
  }

  /** Past the barrier, every key the rank reads is there, with the value it is for. */
  lemma ReadPresent(calls: seq<Call>, n: nat, s: State, r: Rank, slot: Slot)
    requires ProperCalls(calls, n) && Inv(calls, n, s) && r < n && s.P(r).call < |calls| && s.bar.Pc(r) == B.Out
    requires SlotOf(calls[s.P(r).call], n, slot) && WrittenIn(calls[s.P(r).call], slot) + 1 == s.P(r).stage
    ensures var key := KeyOf(calls, s.P(r).call, slot);
            key in s.data && s.data[key] == Meant(calls[s.P(r).call], n, slot)
  {
    hide B.Inv, ReadRight;
    var p, call := s.P(r).call, calls[s.P(r).call];
    var w, stage := Writer(call, slot), WrittenIn(call, slot);
    WorldIsGroup(n);
    SlotAction(call, n, slot);
    assert Placed(calls, n, s, r) && Placed(calls, n, s, w);
    B.LeftMeansEntered(s.bar, World(n), Epoch(calls, p) + stage, r, w);
    EnteredMeansPassed(calls, n, s, w, p, stage, WrittenAt(n, slot));
    assert StoreRight(calls, n, s, p, slot);
  }

  // ---- Steps keep the invariant ----

  lemma OtherRank(calls: seq<Call>, n: nat, s: State, s': State, q: Rank)
    requires ProperCalls(calls, n) && q < n && Placed(calls, n, s, q) && ReadRight(calls, n, s, q)
    requires s'.P(q) == s.P(q) && s'.bar.Pc(q) == s.bar.Pc(q)
             && s'.bar.Entered(q, World(n)) == s.bar.Entered(q, World(n))
    ensures Placed(calls, n, s', q) && ReadRight(calls, n, s', q)
  {
    hide Actions, Wanted, Expected, Epoch, World;
  }

  // Nothing was put, and no slot was passed.
  lemma StoreSame(calls: seq<Call>, n: nat, s: State, s': State, p: nat, slot: Slot)
    requires ProperCalls(calls, n) && p < |calls| && SlotOf(calls[p], n, slot) && StoreRight(calls, n, s, p, slot)
    requires s'.data == s.data
    requires var w := Writer(calls[p], slot);
             Passed(s'.P(w), p, WrittenIn(calls[p], slot), WrittenAt(n, slot)) ==>
               Passed(s.P(w), p, WrittenIn(calls[p], slot), WrittenAt(n, slot))
    ensures StoreRight(calls, n, s', p, slot)
  {
  }

  // Putting the slot the next action is for.
  lemma PutKeeps(calls: seq<Call>, n: nat, s: State, r: Rank, slot: Slot, v: Value, p: nat, other: Slot)
    requires ProperCalls(calls, n) && r < n && s.P(r).call < |calls| && s.P(r).done < |Todo(calls, n, s, r)|
    requires SlotOf(calls[s.P(r).call], n, slot) && v == Meant(calls[s.P(r).call], n, slot)
    requires Todo(calls, n, s, r)[s.P(r).done] == (if slot.Result? then PutReduced else Put(slot, v))
    requires p < |calls| && SlotOf(calls[p], n, other) && StoreRight(calls, n, s, p, other)
    ensures var put := s.With(r, s.P(r).(done := s.P(r).done + 1));
            StoreRight(calls, n, put.(data := s.data[KeyOf(calls, s.P(r).call, slot) := v]), p, other)
  {
    hide Actions, Meant;
    var c := s.P(r).call;
    if KeyOf(calls, p, other) == KeyOf(calls, c, slot) {
      KeyUnique(calls, p, other, c, slot);
    } else {
      SlotAction(calls[p], n, other);
    }
  }

  // An action that only reads passes no slot.
  lemma GetKeeps(calls: seq<Call>, n: nat, s: State, r: Rank, got: seq<Value>, p: nat, other: Slot)
    requires ProperCalls(calls, n) && r < n && s.P(r).call < |calls| && s.P(r).done < |Todo(calls, n, s, r)|
    requires Todo(calls, n, s, r)[s.P(r).done].Get?
    requires p < |calls| && SlotOf(calls[p], n, other) && StoreRight(calls, n, s, p, other)
    ensures StoreRight(calls, n, s.With(r, s.P(r).(done := s.P(r).done + 1, got := got)), p, other)
  {
    hide Actions, Meant;
    SlotAction(calls[p], n, other);
    StoreSame(calls, n, s, s.With(r, s.P(r).(done := s.P(r).done + 1, got := got)), p, other);
  }

  // A finished stage has nothing left to pass.
  lemma AdvanceKeeps(calls: seq<Call>, n: nat, s: State, s': State, r: Rank, p: nat, other: Slot)
    requires ProperCalls(calls, n) && r < n && s.P(r).call < |calls| && s.P(r).done == |Todo(calls, n, s, r)|
    requires s'.data == s.data && (forall q :: q != r ==> s'.P(q) == s.P(q))
    requires s'.P(r).done == 0
    requires || (s'.P(r).call == s.P(r).call && s'.P(r).stage == s.P(r).stage + 1)
             || (s'.P(r).call == s.P(r).call + 1 && s'.P(r).stage == 0 && s.P(r).stage == Barriers(calls[s.P(r).call]))
    requires p < |calls| && SlotOf(calls[p], n, other) && StoreRight(calls, n, s, p, other)
    ensures StoreRight(calls, n, s', p, other)
  {
    hide Actions, Meant;
    SlotAction(calls[p], n, other);
    StoreSame(calls, n, s, s', p, other);
  }

  // The values read from all ranks' vectors reduce to the reduction of the vectors.
  lemma ReducedRight(call: Call, n: nat)
    requires Proper(call, n) && n > 0 && call.AllReduce?
    ensures n <= |Actions(call, n, call.root, 2)|
    ensures ReduceRead(call.op, Wanted(call, n, call.root, 2, n)) == Nums(Reduce(call.op, call.vals))
  {
    WantedFromAll(call, n, call.root, 2, n);
    var got := Wanted(call, n, call.root, 2, n);
    assert seq(|got|, i requires 0 <= i < |got| && got[i].Nums? => got[i].xs) == call.vals;
  }

  lemma {:induction false} WantedFromAll(call: Call, n: nat, r: Rank, stage: nat, k: nat)
    requires Proper(call, n) && n > 0 && r < n && k <= n
    requires (call.AllReduce? && stage == 2 && r == call.root) || (call.AllGather? && stage == 1)
    ensures k <= |Actions(call, n, r, stage)| && |Wanted(call, n, r, stage, k)| == k
    ensures forall d :: 0 <= d < k ==> Wanted(call, n, r, stage, k)[d] == Meant(call, n, From(d))
  {
    hide Reduce;
    if k > 0 {
      WantedFromAll(call, n, r, stage, k - 1);
      assert Actions(call, n, r, stage)[k - 1] == Get(From(k - 1));
    }
  }

  lemma {:induction false} WantedToMe(call: Call, n: nat, r: Rank, k: nat)
    requires Proper(call, n) && n > 0 && r < n && k <= n && call.AllToAll?
    ensures k <= |Actions(call, n, r, 2)| && |Wanted(call, n, r, 2, k)| == k
    ensures forall q :: 0 <= q < k ==> Wanted(call, n, r, 2, k)[q] == Meant(call, n, FromTo(q, r))
  {
    if k > 0 { WantedToMe(call, n, r, k - 1); }
  }

  /** What the last stage of a call reads is what the call is to return. */
  lemma WantedIsExpected(call: Call, n: nat, r: Rank)
    requires Proper(call, n) && n > 0 && r < n
    ensures var acts := Actions(call, n, r, Barriers(call));
            Wanted(call, n, r, Barriers(call), |acts|) == Expected(call, n, r)
  {
    match call {
      case Barrier =>
      case AllGather(_) => WantedFromAll(call, n, r, 1, n);
      case AllToAll(_) => WantedToMe(call, n, r, n);
      case AllReduce(_, _, _) =>
        assert Wanted(call, n, r, 3, 0) == [];
        assert Wanted(call, n, r, 3, 1) == [] + [Meant(call, n, Result)];
    }
  }

  // The rank that acts: its place and its readings after one more action.
  lemma ActedRank(calls: seq<Call>, n: nat, s: State, s': State, r: Rank)
    requires ProperCalls(calls, n) && r < n && Placed(calls, n, s, r) && ReadRight(calls, n, s, r)
    requires s.P(r).call < |calls| && s.bar.Pc(r) == B.Out && s.P(r).done < |Todo(calls, n, s, r)|
    requires s'.bar == s.bar
    requires var a := Todo(calls, n, s, r)[s.P(r).done];
             var call := calls[s.P(r).call];
             s'.P(r) == s.P(r).(done := s.P(r).done + 1,
                                got := s.P(r).got +
                                       if a.Get? && SlotOf(call, n, a.slot) then [Meant(call, n, a.slot)] else [])
    ensures Placed(calls, n, s', r) && ReadRight(calls, n, s', r)
  {
    hide Actions, Expected, Epoch, World, Meant;
  }

  lemma PutStep(calls: seq<Call>, n: nat, s: State, r: Rank, slot: Slot, v: Value)
    requires ProperCalls(calls, n) && Inv(calls, n, s) && Enabled(calls, n, s, Act(r))
    requires SlotOf(calls[s.P(r).call], n, slot) && v == Meant(calls[s.P(r).call], n, slot)
    requires Todo(calls, n, s, r)[s.P(r).done] == (if slot.Result? then PutReduced else Put(slot, v))
    ensures var put := s.With(r, s.P(r).(done := s.P(r).done + 1));
            Inv(calls, n, put.(data := s.data[KeyOf(calls, s.P(r).call, slot) := v]))
  {
    hide Actions, Meant, Placed, ReadRight, StoreRight, B.Inv, KeyOf;
    var s' := s.With(r, s.P(r).(done := s.P(r).done + 1)).(data := s.data[KeyOf(calls, s.P(r).call, slot) := v]);
    forall q | 0 <= q < n ensures Placed(calls, n, s', q) && ReadRight(calls, n, s', q) {
      if q == r {
        assert s.P(r).got + [] == s.P(r).got;
        ActedRank(calls, n, s, s', r);
      } else {
        OtherRank(calls, n, s, s', q);
      }
    }
    forall p, other | 0 <= p < |calls| && SlotOf(calls[p], n, other) ensures StoreRight(calls, n, s', p, other) {
      PutKeeps(calls, n, s, r, slot, v, p, other);
    }
  }

  lemma GetStep(calls: seq<Call>, n: nat, s: State, r: Rank, slot: Slot)
    requires ProperCalls(calls, n) && Inv(calls, n, s) && Enabled(calls, n, s, Act(r))
    requires Todo(calls, n, s, r)[s.P(r).done] == Get(slot) && SlotOf(calls[s.P(r).call], n, slot)
    ensures var got := s.P(r).got + [Meant(calls[s.P(r).call], n, slot)];
            Inv(calls, n, s.With(r, s.P(r).(done := s.P(r).done + 1, got := got)))
  {
    hide Actions, Meant, Placed, ReadRight, StoreRight, B.Inv, KeyOf;
    var got := s.P(r).got + [Meant(calls[s.P(r).call], n, slot)];
    var s' := s.With(r, s.P(r).(done := s.P(r).done + 1, got := got));
    forall q | 0 <= q < n ensures Placed(calls, n, s', q) && ReadRight(calls, n, s', q) {
      if q == r { ActedRank(calls, n, s, s', r); } else { OtherRank(calls, n, s, s', q); }
    }
    forall p, other | 0 <= p < |calls| && SlotOf(calls[p], n, other) ensures StoreRight(calls, n, s', p, other) {
      GetKeeps(calls, n, s, r, got, p, other);
    }
  }

  lemma ActStep(calls: seq<Call>, n: nat, s: State, r: Rank)
    requires ProperCalls(calls, n) && Inv(calls, n, s) && Enabled(calls, n, s, Act(r))
    ensures Inv(calls, n, Apply(calls, n, s, Act(r)))
  {
    hide Actions, Meant, StoreRight, B.Inv, KeyOf, Reduce, ReduceRead;
    var p := s.P(r);
    var call := calls[p.call];
    assert Placed(calls, n, s, r) && ReadRight(calls, n, s, r);
    ActionSlot(call, n, r, p.stage, p.done);
    match Todo(calls, n, s, r)[p.done] {
      case Put(slot, v) =>
        assert !slot.Result? by { SlotAction(call, n, slot); }
        PutStep(calls, n, s, r, slot, v);
      case PutReduced =>
        ReducedRight(call, n);
        ResultMeant(call, n);
        PutStep(calls, n, s, r, Result, ReduceRead(call.op, p.got));
      case Get(slot) =>
        ReadPresent(calls, n, s, r, slot);
        GetStep(calls, n, s, r, slot);
    }
  }

  lemma ResultMeant(call: Call, n: nat)
    requires Proper(call, n) && n > 0 && call.AllReduce?
    ensures SlotOf(call, n, Result) && Meant(call, n, Result) == Nums(Reduce(call.op, call.vals))
  {
  }

  lemma EnterStep(calls: seq<Call>, n: nat, s: State, r: Rank)
    requires ProperCalls(calls, n) && Inv(calls, n, s) && Enabled(calls, n, s, EnterBarrier(r))
    ensures Inv(calls, n, Apply(calls, n, s, EnterBarrier(r)))
  {
    hide Actions, StoreRight, B.Inv, KeyOf, World, Wanted, Expected;
    WorldIsGroup(n);
    var s' := Apply(calls, n, s, EnterBarrier(r));
    B.InvKept(s.bar, B.Enter(r, World(n)));
    assert Placed(calls, n, s, r) && ReadRight(calls, n, s, r);
    forall q | 0 <= q < n ensures Placed(calls, n, s', q) && ReadRight(calls, n, s', q) {
      if q != r { OtherRank(calls, n, s, s', q); }
    }
    forall p, other | 0 <= p < |calls| && SlotOf(calls[p], n, other) ensures StoreRight(calls, n, s', p, other) {
      StoreSame(calls, n, s, s', p, other);
    }
  }

  lemma PollFrame(bar: B.State, r: Rank, g: B.Group)
    requires B.Inside(bar) && bar.Pc(r).In?
    ensures var bar' := B.Apply(bar, B.Poll(r));
            && (forall q :: q != r ==> bar'.Pc(q) == bar.Pc(q))
            && (forall q :: bar'.Entered(q, g) == bar.Entered(q, g))
            && (bar'.Pc(r) == B.Out || (bar'.Pc(r).In? && bar'.Pc(r).g == bar.Pc(r).g && bar'.Pc(r).ix == bar.Pc(r).ix))
  {
    var In(h, jx, phase) := bar.Pc(r);
    B.AttemptFrame(bar, r, h, jx, phase, (h, jx));
  }

  lemma PollStep(calls: seq<Call>, n: nat, s: State, r: Rank)
    requires ProperCalls(calls, n) && Inv(calls, n, s) && Enabled(calls, n, s, PollBarrier(r))
    ensures Inv(calls, n, Apply(calls, n, s, PollBarrier(r)))
  {
    hide Actions, StoreRight, KeyOf, World, Expected, B.Apply, B.KeyMeaning;
    var s' := Apply(calls, n, s, PollBarrier(r));
    B.InvKept(s.bar, B.Poll(r));
    PollFrame(s.bar, r, World(n));
    assert Placed(calls, n, s, r) && ReadRight(calls, n, s, r);
    forall q | 0 <= q < n ensures Placed(calls, n, s', q) && ReadRight(calls, n, s', q) {
      if q != r { OtherRank(calls, n, s, s', q); }
    }
    forall p, other | 0 <= p < |calls| && SlotOf(calls[p], n, other) ensures StoreRight(calls, n, s', p, other) {
      if s'.bar.Pc(r) == B.Out {
        AdvanceKeeps(calls, n, s, s', r, p, other);
      } else {
        StoreSame(calls, n, s, s', p, other);
      }
    }
  }

  lemma FinishStep(calls: seq<Call>, n: nat, s: State, r: Rank)
    requires ProperCalls(calls, n) && Inv(calls, n, s) && Enabled(calls, n, s, Finish(r))
    ensures Inv(calls, n, Apply(calls, n, s, Finish(r)))
  {
    hide Actions, StoreRight, KeyOf, World, Expected, B.Inv;
    var s' := Apply(calls, n, s, Finish(r));
    assert Placed(calls, n, s, r) && ReadRight(calls, n, s, r);
    WantedIsExpected(calls[s.P(r).call], n, r);
    forall q | 0 <= q < n ensures Placed(calls, n, s', q) && ReadRight(calls, n, s', q) {
      if q != r { OtherRank(calls, n, s, s', q); }
    }
    forall p, other | 0 <= p < |calls| && SlotOf(calls[p], n, other) ensures StoreRight(calls, n, s', p, other) {
      AdvanceKeeps(calls, n, s, s', r, p, other);
    }
  }

  // ---- Whole runs ----

  ghost predicate Reachable(calls: seq<Call>, n: nat, s: State, steps: seq<Step>)
    requires ProperCalls(calls, n)
    decreases |steps|
  {
    if steps == [] then s == INITIAL
    else
      var last := steps[|steps| - 1];
      exists r :: ReachedBefore(calls, n, r, steps) && Enabled(calls, n, r, last) && Apply(calls, n, r, last) == s
  }

  ghost predicate ReachedBefore(calls: seq<Call>, n: nat, r: State, steps: seq<Step>)
    requires ProperCalls(calls, n) && steps != []
    decreases |steps|, 0
  {
    Reachable(calls, n, r, steps[..|steps| - 1])
  }

  lemma {:induction false} ReachableInv(calls: seq<Call>, n: nat, s: State, steps: seq<Step>)
    requires ProperCalls(calls, n) && Reachable(calls, n, s, steps)
    ensures Inv(calls, n, s)
    decreases |steps|
  {
    hide Inv, ProperCalls;
    if steps == [] {
      InitialInv(calls, n);
    } else {
      var k := |steps| - 1;
      var r :| ReachedBefore(calls, n, r, steps) && Enabled(calls, n, r, steps[k]) && Apply(calls, n, r, steps[k]) == s;
      ReachableInv(calls, n, r, steps[..k]);
      match steps[k] {
        case Act(q) => ActStep(calls, n, r, q);
        case EnterBarrier(q) => EnterStep(calls, n, r, q);
        case PollBarrier(q) => PollStep(calls, n, r, q);
        case Finish(q) => FinishStep(calls, n, r, q);
      }
    }
  }

  /**
   Collective agreement, for every number of ranks, sequence of collectives and interleaving, of
   whatever a call has returned to a rank: a gathered list holds at place d what rank d passed, an
   all-to-all what rank q sent to this one at place q, and every rank gets the reduction of all inputs.
   */
  lemma CollectivesAgree(calls: seq<Call>, n: nat, s: State, steps: seq<Step>, r: Rank, p: nat)
    requires ProperCalls(calls, n) && Reachable(calls, n, s, steps) && r < n && p < |s.P(r).results|
    ensures p < |calls|
    ensures var got := s.P(r).results[p];
            match calls[p]
            case Barrier => got == []
            case AllGather(objs) => |got| == n && forall d :: 0 <= d < n ==> got[d] == objs[d]
            case AllToAll(sends) => |got| == n && forall q :: 0 <= q < n ==> got[q] == sends[q][r]
            case AllReduce(vals, op, _) => |got| == 1 && got[0].Nums? && IsReduction(op, vals, got[0].xs)
  {
    hide Rectangular, IsReduction, Reduce;
    ReachableInv(calls, n, s, steps);
    assert Placed(calls, n, s, r) && ReadRight(calls, n, s, r);
    if calls[p].AllReduce? {
      ProperRows(calls[p], n);
      ReduceIs(calls[p].op, calls[p].vals);
    }
  }

  lemma ProperRows(call: Call, n: nat)
    requires Proper(call, n) && call.AllReduce?
    ensures Rectangular(call.vals)
  {
  }

  /** No read past a barrier ever has to be retried: the key it wants is there. */
  lemma ReadsNeverWait(calls: seq<Call>, n: nat, s: State, steps: seq<Step>, r: Rank)
    requires ProperCalls(calls, n) && Reachable(calls, n, s, steps) && Enabled(calls, n, s, Act(r))
    requires Todo(calls, n, s, r)[s.P(r).done].Get?
    ensures KeyOf(calls, s.P(r).call, Todo(calls, n, s, r)[s.P(r).done].slot) in s.data
  {
    ReachableInv(calls, n, s, steps);
    assert Placed(calls, n, s, r);
    ActionSlot(calls[s.P(r).call], n, r, s.P(r).stage, s.P(r).done);
    ReadPresent(calls, n, s, r, Todo(calls, n, s, r)[s.P(r).done].slot);
  }
}
