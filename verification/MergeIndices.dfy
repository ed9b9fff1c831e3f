/**
 Index merging: two index lists over two prepared (compressed) descriptor lists become the
 descriptors of one transfer. Consecutive index pairs inside dense runs become one descriptor.

 `Merge` is the plain form: look up the runs of every head pair, count the pairs that continue
 one by one. `MergeIndices` is the code: cached runs, checks only when a pair leaves them, and
 the continuation bitmap. `MergePreservesMeaning` compares `Merge` with emitting one block per
 index.
 */
module IndexMerging {
  import opened MachineInt
  import opened Descriptors
  import opened StrideRuns
  import CB = ContinuationBitmap

  datatype Merged = Rejected | Accepted(local: seq<MetaDesc>, remote: seq<MetaDesc>, bytes: nat)

  function Unsigned(indices: seq<i32>): (us: seq<u32>)
    ensures |us| == |indices|
    ensures forall i :: 0 <= i < |indices| ==> us[i] == AsUnsigned(indices[i])
  {
    seq(|indices|, i requires 0 <= i < |indices| => AsUnsigned(indices[i]))
  }

  predicate Mergeable(a: StrideRun, b: StrideRun, skip: bool) {
    !skip && a.stride == a.len && a.stride == b.stride
  }

  // The bytes of s blocks of a run.
  function RunBytes(run: StrideRun, s: nat): nat {
    run.len * s
  }

  // How many pairs from i on may still lie in the runs a and b.
  function Cap(a: StrideRun, b: StrideRun, li: seq<i32>, ri: seq<i32>, i: nat): nat
    requires i < |li| == |ri| && InRun(a, AsSize(li[i])) && InRun(b, AsSize(ri[i]))
  {
    Min(Min(a.startIdx + a.count - AsSize(li[i]), b.startIdx + b.count - AsSize(ri[i])), |li| - i)
  }

  function SeqCount(a: StrideRun, b: StrideRun, li: seq<i32>, ri: seq<i32>, skip: bool, i: nat): (s: nat)
    requires i < |li| == |ri| && InRun(a, AsSize(li[i])) && InRun(b, AsSize(ri[i]))
    ensures 1 <= s <= Cap(a, b, li, ri, i) && s <= a.count && s <= b.count && i + s <= |li|
  {
    if Mergeable(a, b, skip) then
      CB.RunLengthBound(Unsigned(li), Unsigned(ri), i + 1, Cap(a, b, li, ri, i) - 1);
      1 + CB.RunLength(Unsigned(li), Unsigned(ri), i + 1, Cap(a, b, li, ri, i) - 1)
    else 1
  }

  // What the merge emits from pair i on.
  ghost function Merge(lr: seq<StrideRun>, rr: seq<StrideRun>, li: seq<i32>, ri: seq<i32>, skip: bool, i: nat)
    : (m: Merged)
    requires Numbered(lr) && Numbered(rr) && i <= |li| == |ri|
    ensures m.Accepted? ==> |m.local| == |m.remote|
    decreases |li| - i
  {
    if i == |li| then Accepted([], [], 0)
    else if AsSize(li[i]) >= FlatSize(lr) || AsSize(ri[i]) >= FlatSize(rr) then Rejected
    else
      var a, b := lr[RunOf(lr, AsSize(li[i]))], rr[RunOf(rr, AsSize(ri[i]))];
      if a.len != b.len then Rejected
      else
        var s := SeqCount(a, b, li, ri, skip, i);
        Cons(GetMetaDesc(a, AsSize(li[i]), s), GetMetaDesc(b, AsSize(ri[i]), s), RunBytes(a, s),
             Merge(lr, rr, li, ri, skip, i + s))
  }

  ghost function Cons(d: MetaDesc, e: MetaDesc, bytes: nat, rest: Merged): Merged {
    if rest.Rejected? then Rejected else Accepted([d] + rest.local, [e] + rest.remote, bytes + rest.bytes)
  }

  // Emitting before the rest is emitting after what came first.
  ghost function Prepend(local: seq<MetaDesc>, remote: seq<MetaDesc>, bytes: nat, rest: Merged): Merged {
    if rest.Rejected? then Rejected else Accepted(local + rest.local, remote + rest.remote, bytes + rest.bytes)
  }

  lemma PrependCons(local: seq<MetaDesc>, remote: seq<MetaDesc>, bytes: nat, d: MetaDesc, e: MetaDesc, n: nat,
                    rest: Merged)
    ensures Prepend(local, remote, bytes, Cons(d, e, n, rest)) == Prepend(local + [d], remote + [e], bytes + n, rest)
  {
    if rest.Accepted? {
      assert local + ([d] + rest.local) == local + [d] + rest.local;
      assert remote + ([e] + rest.remote) == remote + [e] + rest.remote;
    }
  }

  const EMPTY_RUN := StrideRun(0, 0, 0, 0, 0, 0, 0)

  // The cached runs are the ones of the current head pair, already checked; or nothing is cached yet.
  ghost predicate Cached(lr: seq<StrideRun>, rr: seq<StrideRun>, a: StrideRun, b: StrideRun, dense: bool, skip: bool) {
    || (a == EMPTY_RUN && b == EMPTY_RUN && !dense)
    || (a in lr && b in rr && a.len == b.len && dense == Mergeable(a, b, skip))
  }

  // Inside the cached runs an index is in range, and looking it up gives the cached run again.
  lemma CachedRun(runs: seq<StrideRun>, run: StrideRun, idx: u64)
    requires Numbered(runs) && (run in runs || run == EMPTY_RUN)
    ensures Sub64(idx, run.startIdx) < run.count <==> run in runs && InRun(run, idx)
    ensures Sub64(idx, run.startIdx) < run.count ==> idx < FlatSize(runs) && runs[RunOf(runs, idx)] == run
  {
    if run in runs {
      var k :| 0 <= k < |runs| && runs[k] == run;
      ExpandAt(runs, k, run.count - 1);
      if InRun(run, idx) {
        InRunUnique(runs, idx, k, RunOf(runs, idx));
      }
    }
  }

  // The runs of pair i are a and b, and merging there is allowed.
  ghost predicate Heads(lr: seq<StrideRun>, rr: seq<StrideRun>, li: seq<i32>, ri: seq<i32>, i: nat, a: StrideRun,
                        b: StrideRun)
    requires Numbered(lr) && Numbered(rr) && i < |li| == |ri|
  {
    && AsSize(li[i]) < FlatSize(lr) && AsSize(ri[i]) < FlatSize(rr)
    && a == lr[RunOf(lr, AsSize(li[i]))] && b == rr[RunOf(rr, AsSize(ri[i]))]
    && a.len == b.len
  }

  lemma MergeUnfold(lr: seq<StrideRun>, rr: seq<StrideRun>, li: seq<i32>, ri: seq<i32>, skip: bool, i: nat,
                    a: StrideRun, b: StrideRun)
    requires Numbered(lr) && Numbered(rr) && i < |li| == |ri| && Heads(lr, rr, li, ri, i, a, b)
    ensures var s := SeqCount(a, b, li, ri, skip, i);
            Merge(lr, rr, li, ri, skip, i) ==
            Cons(GetMetaDesc(a, AsSize(li[i]), s), GetMetaDesc(b, AsSize(ri[i]), s), RunBytes(a, s),
                 Merge(lr, rr, li, ri, skip, i + s))
  {
    hide RunOf, CB.RunLength, Numbered, InRun, Mergeable, GetMetaDesc, Unsigned, Cons, RunBytes;
  }

  lemma MergeStep(lr: seq<StrideRun>, rr: seq<StrideRun>, li: seq<i32>, ri: seq<i32>, skip: bool, i: nat,
                  a: StrideRun, b: StrideRun, local: seq<MetaDesc>, remote: seq<MetaDesc>, bytes: nat)
    requires Numbered(lr) && Numbered(rr) && i < |li| == |ri| && Heads(lr, rr, li, ri, i, a, b)
    ensures var s := SeqCount(a, b, li, ri, skip, i);
            Prepend(local, remote, bytes, Merge(lr, rr, li, ri, skip, i)) ==
            Prepend(local + [GetMetaDesc(a, AsSize(li[i]), s)], remote + [GetMetaDesc(b, AsSize(ri[i]), s)],
                    bytes + RunBytes(a, s), Merge(lr, rr, li, ri, skip, i + s))
  {
    hide Merge, SeqCount, RunOf, Numbered, GetMetaDesc, RunBytes, Prepend, Cons;
    var s := SeqCount(a, b, li, ri, skip, i);
    MergeUnfold(lr, rr, li, ri, skip, i, a, b);
    PrependCons(local, remote, bytes, GetMetaDesc(a, AsSize(li[i]), s), GetMetaDesc(b, AsSize(ri[i]), s),
                RunBytes(a, s), Merge(lr, rr, li, ri, skip, i + s));
  }

  // Looking up a pair divides by both run sizes.
  ghost predicate Divides(lr: seq<StrideRun>, rr: seq<StrideRun>) {
    lr != [] && rr != [] && RunSize(FlatSize(lr), |lr|) > 0 && RunSize(FlatSize(rr), |rr|) > 0
  }

  // The merge is defined: it looks up its first pair, unless there is none or it is out of range.
  ghost predicate Defined(lr: seq<StrideRun>, rr: seq<StrideRun>, li: seq<i32>, ri: seq<i32>)
    requires |li| == |ri|
  {
    li != [] && AsSize(li[0]) < FlatSize(lr) && AsSize(ri[0]) < FlatSize(rr) ==> Divides(lr, rr)
  }

  // The range and length checks of pair i, made only when it leaves the cached runs.
  method EnterRuns(lr: seq<StrideRun>, rr: seq<StrideRun>, li: seq<i32>, ri: seq<i32>, skip: bool, i: nat,
                   cachedLocal: StrideRun, cachedRemote: StrideRun, cachedDense: bool)
    returns (ok: bool, localRun: StrideRun, remoteRun: StrideRun, dense: bool)
    requires Numbered(lr) && Numbered(rr) && 0 < |lr| < TWO_64 && 0 < |rr| < TWO_64 && i < |li| == |ri|
    requires AsSize(li[i]) < FlatSize(lr) && AsSize(ri[i]) < FlatSize(rr) ==> Divides(lr, rr)
    requires Cached(lr, rr, cachedLocal, cachedRemote, cachedDense, skip)
    ensures ok ==> Heads(lr, rr, li, ri, i, localRun, remoteRun) && dense == Mergeable(localRun, remoteRun, skip)
    ensures ok ==> localRun in lr && remoteRun in rr && Divides(lr, rr)
    ensures !ok ==> Merge(lr, rr, li, ri, skip, i).Rejected?
  {
    var localIdx, remoteIdx := AsSize(li[i]), AsSize(ri[i]);
    localRun, remoteRun, dense := cachedLocal, cachedRemote, cachedDense;
    CachedRun(lr, localRun, localIdx);
    CachedRun(rr, remoteRun, remoteIdx);
    if Sub64(localIdx, localRun.startIdx) >= localRun.count ||
       Sub64(remoteIdx, remoteRun.startIdx) >= remoteRun.count
    {
      if localIdx >= FlatSize(lr) { return false, localRun, remoteRun, dense; }
      if remoteIdx >= FlatSize(rr) { return false, localRun, remoteRun, dense; }
      var l := Find(lr, localIdx);
      var r := Find(rr, remoteIdx);
      localRun, remoteRun := lr[l], rr[r];
      if localRun.len != remoteRun.len { return false, localRun, remoteRun, dense; }
      dense := !skip && localRun.stride == localRun.len && localRun.stride == remoteRun.stride;
    }
    ok := true;
  }

  // The number of pairs that merge into the head pair i.
  method CountSequence(bitmap: CB.Bitmap, a: StrideRun, b: StrideRun, li: seq<i32>, ri: seq<i32>, skip: bool,
                       dense: bool, i: nat)
    returns (seqCount: nat)
    requires i < |li| == |ri| && InRun(a, AsSize(li[i])) && InRun(b, AsSize(ri[i])) && dense == Mergeable(a, b, skip)
    requires bitmap.Valid() && bitmap.local == Unsigned(li) && bitmap.remote == Unsigned(ri)
             && bitmap.chunkFirst <= i + 1
    modifies bitmap, bitmap.words
    ensures seqCount == SeqCount(a, b, li, ri, skip, i)
    ensures bitmap.Valid() && bitmap.chunkFirst <= i + seqCount + 1
  {
    hide CB.Bitmap.Valid;
    seqCount := 1;
    if dense {
      var cap := Min(Min(a.startIdx + a.count - AsSize(li[i]), b.startIdx + b.count - AsSize(ri[i])), |li| - i);
      var more := bitmap.CountContinuations(i + 1, cap - 1);
      seqCount := seqCount + more;
    }
  }

  lemma MergeEnds(lr: seq<StrideRun>, rr: seq<StrideRun>, li: seq<i32>, ri: seq<i32>, skip: bool,
                  local: seq<MetaDesc>, remote: seq<MetaDesc>, bytes: nat)
    requires Numbered(lr) && Numbered(rr) && |li| == |ri|
    ensures Prepend(local, remote, bytes, Merge(lr, rr, li, ri, skip, |li|)) == Accepted(local, remote, bytes)
  {
    assert local + [] == local && remote + [] == remote;
  }

  /** The code: it computes exactly `Merge`, with the byte total reduced to 64 bits. */
  method MergeIndices(lr: seq<StrideRun>, rr: seq<StrideRun>, li: seq<i32>, ri: seq<i32>, skip: bool)
    returns (ok: bool, local: seq<MetaDesc>, remote: seq<MetaDesc>, totalBytes: u64)
    requires Numbered(lr) && Numbered(rr) && 0 < |lr| < TWO_64 && 0 < |rr| < TWO_64
    requires |li| == |ri| < TWO_64 && Defined(lr, rr, li, ri)
    ensures ok == Merge(lr, rr, li, ri, skip, 0).Accepted?
    ensures ok ==> Merge(lr, rr, li, ri, skip, 0).local == local && Merge(lr, rr, li, ri, skip, 0).remote == remote
    ensures ok ==> totalBytes == Merge(lr, rr, li, ri, skip, 0).bytes % TWO_64
  {
    hide RunOf, CB.RunLength, CB.Bitmap.Valid, Unsigned, Numbered, Mergeable, GetMetaDesc, RunBytes, Merge, SeqCount,
      Divides;
    local, remote, totalBytes := [], [], 0;
    ghost var bytes: nat := 0;
    var localRun, remoteRun, dense := EMPTY_RUN, EMPTY_RUN, false;
    var bitmap := new CB.Bitmap(Unsigned(li), Unsigned(ri));
    var i := 0;
    PrependNothing(Merge(lr, rr, li, ri, skip, 0));
    while i < |li|
      invariant i <= |li| && totalBytes == bytes % TWO_64 && (i > 0 ==> Divides(lr, rr))
      invariant Cached(lr, rr, localRun, remoteRun, dense, skip)
      invariant bitmap.Valid() && fresh(bitmap) && fresh(bitmap.words)
      invariant bitmap.local == Unsigned(li) && bitmap.remote == Unsigned(ri)
      invariant bitmap.chunkFirst <= i + 1
      invariant Merge(lr, rr, li, ri, skip, 0) == Prepend(local, remote, bytes, Merge(lr, rr, li, ri, skip, i))
      decreases |li| - i
    {
      var inRange;
      inRange, localRun, remoteRun, dense := EnterRuns(lr, rr, li, ri, skip, i, localRun, remoteRun, dense);
      if !inRange { return false, local, remote, totalBytes; }
      var seqCount := CountSequence(bitmap, localRun, remoteRun, li, ri, skip, dense, i);
      MergeStep(lr, rr, li, ri, skip, i, localRun, remoteRun, local, remote, bytes);
      AddMulMod(bytes, RunBytes(localRun, seqCount));
      local := local + [GetMetaDesc(localRun, AsSize(li[i]), seqCount)];
      remote := remote + [GetMetaDesc(remoteRun, AsSize(ri[i]), seqCount)];
      totalBytes := (totalBytes + RunBytes(localRun, seqCount)) % TWO_64;
      bytes := bytes + RunBytes(localRun, seqCount);
      i := i + seqCount;
    }
    MergeEnds(lr, rr, li, ri, skip, local, remote, bytes);
    ok := true;
  }

  lemma PrependNothing(m: Merged)
    ensures Prepend([], [], 0, m) == m
  {
    if m.Accepted? {
      assert [] + m.local == m.local && [] + m.remote == m.remote;
    }
  }

  lemma AddMulMod(a: nat, b: nat)
    ensures (a % TWO_64 + b) % TWO_64 == (a + b) % TWO_64
  {
    var q, r := a / TWO_64, a % TWO_64;
    assert a + b == q * TWO_64 + (r + b);
    var q', r' := (r + b) / TWO_64, (r + b) % TWO_64;
    ModUnique(a + b, q + q', r');
  }

  // ---- Nothing is left unmerged ----

  // Pair j could have joined the descriptor that starts with pair i: merging is on, the runs are dense, the
  // pair goes on from the one before it on both sides, and both runs reach that far.
  ghost predicate CouldJoin(a: StrideRun, b: StrideRun, li: seq<i32>, ri: seq<i32>, skip: bool, i: nat, j: nat)
    requires |li| == |ri|
  {
    && !skip && a.stride == a.len && b.stride == b.len
    && i < j < |li|
    && AsUnsigned(li[j]) == (AsUnsigned(li[j - 1]) + 1) % TWO_32
    && AsUnsigned(ri[j]) == (AsUnsigned(ri[j - 1]) + 1) % TWO_32
    && AsSize(li[i]) + (j - i) < a.startIdx + a.count && AsSize(ri[i]) + (j - i) < b.startIdx + b.count
  }

  // Pairs i to j became one descriptor on each side, and all of them had to: those after the first could
  // join it, and the one behind them could not.
  ghost predicate Chunk(lr: seq<StrideRun>, rr: seq<StrideRun>, li: seq<i32>, ri: seq<i32>, skip: bool, i: nat, j: nat,
                        d: MetaDesc, e: MetaDesc)
    requires Numbered(lr) && Numbered(rr) && |li| == |ri|
  {
    && i < j <= |li| && j - i < TWO_64 && AsSize(li[i]) < FlatSize(lr) && AsSize(ri[i]) < FlatSize(rr)
    && var a, b := lr[RunOf(lr, AsSize(li[i]))], rr[RunOf(rr, AsSize(ri[i]))];
    && (forall k :: i < k < j ==> CouldJoin(a, b, li, ri, skip, i, k)) && !CouldJoin(a, b, li, ri, skip, i, j)
    && d == GetMetaDesc(a, AsSize(li[i]), j - i) && e == GetMetaDesc(b, AsSize(ri[i]), j - i)
  }

  // The pairs from i on, cut into one chunk per descriptor.
  ghost predicate Cut(lr: seq<StrideRun>, rr: seq<StrideRun>, li: seq<i32>, ri: seq<i32>, skip: bool, i: nat, m: Merged,
                      starts: seq<nat>)
    requires Numbered(lr) && Numbered(rr) && |li| == |ri|
  {
    && m.Accepted? && |m.local| == |m.remote| && |starts| == |m.local| + 1
    && starts[0] == i && starts[|m.local|] == |li|
    && forall k :: 0 <= k < |m.local| ==>
         Chunk(lr, rr, li, ri, skip, starts[k], starts[k + 1], m.local[k], m.remote[k])
  }

  lemma SeqCountJoins(a: StrideRun, b: StrideRun, li: seq<i32>, ri: seq<i32>, skip: bool, i: nat)
    requires i < |li| == |ri| && InRun(a, AsSize(li[i])) && InRun(b, AsSize(ri[i])) && a.len == b.len
    ensures var s := SeqCount(a, b, li, ri, skip, i);
            && (forall k :: i < k < i + s ==> CouldJoin(a, b, li, ri, skip, i, k))
            && !CouldJoin(a, b, li, ri, skip, i, i + s)
  {
    hide CB.RunLength;
    if Mergeable(a, b, skip) {
      CB.RunLengthStops(Unsigned(li), Unsigned(ri), i + 1, Cap(a, b, li, ri, i) - 1);
      forall k | i < k < i + SeqCount(a, b, li, ri, skip, i) ensures CouldJoin(a, b, li, ri, skip, i, k) {
        assert CB.IsContinuation(Unsigned(li), Unsigned(ri), k);
      }
    }
  }

  /**
   Merging is complete: the pairs are cut into as many chunks as there are descriptors, every pair of a chunk
   could join its first, and the pair behind a chunk could not.
   */
  lemma {:induction false} MergeIsMaximal(lr: seq<StrideRun>, rr: seq<StrideRun>, li: seq<i32>, ri: seq<i32>,
                                          skip: bool, i: nat)
    returns (starts: seq<nat>)
    requires Numbered(lr) && Numbered(rr) && i <= |li| == |ri| && Merge(lr, rr, li, ri, skip, i).Accepted?
    ensures Cut(lr, rr, li, ri, skip, i, Merge(lr, rr, li, ri, skip, i), starts)
    decreases |li| - i
  {
    hide RunOf, CouldJoin, Numbered, GetMetaDesc, RunBytes, SeqCount;
    var m := Merge(lr, rr, li, ri, skip, i);
    if i == |li| {
      starts := [i];
    } else {
      var a, b := lr[RunOf(lr, AsSize(li[i]))], rr[RunOf(rr, AsSize(ri[i]))];
      var s := SeqCount(a, b, li, ri, skip, i);
      SeqCountJoins(a, b, li, ri, skip, i);
      var rest := MergeIsMaximal(lr, rr, li, ri, skip, i + s);
      starts := [i] + rest;
      var n := Merge(lr, rr, li, ri, skip, i + s);
      assert m.local == [GetMetaDesc(a, AsSize(li[i]), s)] + n.local;
      assert m.remote == [GetMetaDesc(b, AsSize(ri[i]), s)] + n.remote;
      forall k | 0 <= k < |m.local|
        ensures Chunk(lr, rr, li, ri, skip, starts[k], starts[k + 1], m.local[k], m.remote[k])
      {
        if k > 0 { assert starts[k] == rest[k - 1] && m.local[k] == n.local[k - 1] && m.remote[k] == n.remote[k - 1]; }
      }
    }
  }
}
