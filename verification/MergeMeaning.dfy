/**
 What index merging means: the merged descriptors move the same bytes, in the same order, as one
 block per index. This holds exactly when no mergeable pair of runs crosses block 2^31, the first
 block an `int` index cannot name, and no pair of runs of equal block length can be named by a negative
 index, which the code reads as a block number just below 2^64.
 */
module MergeMeaning {
  import opened MachineInt
  import opened Descriptors
  import opened StrideRuns
  import opened IndexMerging
  import CB = ContinuationBitmap

  // A pair of indices names two blocks of equal length.
  predicate PairValid(local: seq<MetaDesc>, remote: seq<MetaDesc>, a: i32, b: i32) {
    0 <= a < |local| && 0 <= b < |remote| && local[a].basic.len == remote[b].basic.len
  }

  ghost predicate AllValid(local: seq<MetaDesc>, remote: seq<MetaDesc>, li: seq<i32>, ri: seq<i32>)
    requires |li| == |ri|
  {
    forall j :: 0 <= j < |li| ==> PairValid(local, remote, li[j], ri[j])
  }

  // One block per index: the simple form.
  ghost function OneByOne(blocks: seq<MetaDesc>, indices: seq<i32>): (ds: seq<MetaDesc>)
    requires forall j :: 0 <= j < |indices| ==> 0 <= indices[j] < |blocks|
    ensures |ds| == |indices|
    ensures forall j :: 0 <= j < |indices| ==> ds[j] == blocks[indices[j]]
  {
    seq(|indices|, j requires 0 <= j < |indices| => blocks[indices[j]])
  }

  // No pair of runs that would merge holds both an `int` block and the one after the last `int` block.
  ghost predicate NeverCrosses(lr: seq<StrideRun>, rr: seq<StrideRun>, skip: bool) {
    forall a, b :: a in lr && b in rr && a.len == b.len && Mergeable(a, b, skip) &&
                   2 <= a.count && 2 <= b.count && a.startIdx < TWO_31 && b.startIdx < TWO_31 ==>
      a.startIdx + a.count <= TWO_31 && b.startIdx + b.count <= TWO_31
  }

  // The run holds a block that the code takes a negative index for.
  predicate TakesNegative(run: StrideRun) {
    run.startIdx + run.count > TWO_64 - TWO_31
  }

  // The run holds a block that some index reaches.
  predicate Reached(run: StrideRun) {
    run.startIdx < TWO_31 || TakesNegative(run)
  }

  // No pair of an index below zero and another index passes the checks.
  ghost predicate NeverNegative(lr: seq<StrideRun>, rr: seq<StrideRun>) {
    forall a, b :: a in lr && b in rr && a.len == b.len ==>
      !(TakesNegative(a) && Reached(b)) && !(TakesNegative(b) && Reached(a))
  }

  ghost predicate MergeSafe(lr: seq<StrideRun>, rr: seq<StrideRun>, skip: bool) {
    NeverCrosses(lr, rr, skip) && NeverNegative(lr, rr)
  }

  // ---- Bytes of merged blocks ----

  // Blocks k .. k + s of a run.
  ghost function BlockSeq(run: StrideRun, k: nat, s: nat): (bs: seq<MetaDesc>)
    ensures |bs| == s
    ensures forall j :: 0 <= j < s ==> bs[j] == Block(run, k + j)
  {
    seq(s, j requires 0 <= j => Block(run, k + j))
  }

  // s dense blocks from block k as one descriptor.
  ghost function Span(run: StrideRun, k: nat, s: nat): MetaDesc
    requires run.stride == run.len && DenseFits(run) && k + s <= run.count
  {
    SpanFits(run, k, s);
    MetaDesc(BasicDesc(run.addr + k * run.len, s * run.len, run.devId), run.meta)
  }

  lemma SpanFits(run: StrideRun, k: nat, s: nat)
    requires run.stride == run.len && DenseFits(run) && k + s <= run.count
    ensures 0 <= k * run.len && 0 <= s * run.len && (k + s) * run.len == k * run.len + s * run.len
    ensures run.addr + k * run.len + s * run.len < TWO_64
  {
    MulMono(k + s, run.count, run.len);
    assert (k + s) * run.len == k * run.len + s * run.len;
  }

  lemma DenseBlock(run: StrideRun, k: nat)
    requires run.stride == run.len && DenseFits(run) && k < run.count
    ensures Block(run, k) == Span(run, k, 1)
  {
    SpanFits(run, k, 1);
  }

  lemma GetIsSpan(run: StrideRun, idx: u64, s: u64)
    requires run.stride == run.len && DenseFits(run) && InRun(run, idx) && idx - run.startIdx + s <= run.count
    ensures GetMetaDesc(run, idx, s) == Span(run, idx - run.startIdx, s)
  {
    var k := idx - run.startIdx;
    SpanFits(run, k, s);
    SmallProduct(k, run.stride);
    MulCommutes(run.len, s);
    SmallProduct(run.len, s);
  }

  lemma SmallProduct(a: u64, b: u64)
    requires 0 <= a * b < TWO_64
    ensures Mul64(a, b) == a * b
  {
  }

  lemma MulCommutes(a: nat, b: nat)
    ensures a * b == b * a
  {
  }

  // Two adjacent descriptors move the bytes of the one that covers both.
  lemma PairBytesSplit(d: MetaDesc, e: MetaDesc, d1: MetaDesc, e1: MetaDesc, d2: MetaDesc, e2: MetaDesc)
    requires d1.meta == d2.meta == d.meta && e1.meta == e2.meta == e.meta
    requires d1.basic.devId == d2.basic.devId == d.basic.devId && e1.basic.devId == e2.basic.devId == e.basic.devId
    requires d.basic.len == d1.basic.len + d2.basic.len
    requires d1.basic.addr == d.basic.addr && d2.basic.addr == d.basic.addr + d1.basic.len
    requires e1.basic.addr == e.basic.addr && e2.basic.addr == e.basic.addr + d1.basic.len
    ensures PairBytes(d, e) == PairBytes(d1, e1) + PairBytes(d2, e2)
  {
    var t := d1.basic.len;
    var whole, parts := PairBytes(d, e), PairBytes(d1, e1) + PairBytes(d2, e2);
    forall i | 0 <= i < d.basic.len ensures whole[i] == parts[i] {
      if i >= t {
        assert parts[i] == PairBytes(d2, e2)[i - t];
        assert ByteAt(d, i) == ByteAt(d2, i - t) && ByteAt(e, i) == ByteAt(e2, i - t);
      }
    }
  }

  // A span is a shorter span and then its last block.
  lemma SpanSplit(a: StrideRun, b: StrideRun, k: nat, m: nat, s: nat)
    requires a.stride == a.len && b.stride == b.len && a.len == b.len && DenseFits(a) && DenseFits(b)
    requires 0 < s && k + s <= a.count && m + s <= b.count
    ensures PairBytes(Span(a, k, s), Span(b, m, s))
         == PairBytes(Span(a, k, s - 1), Span(b, m, s - 1)) + PairBytes(Block(a, k + s - 1), Block(b, m + s - 1))
  {
    SpanEnd(a, k, s);
    SpanEnd(b, m, s);
    PairBytesSplit(Span(a, k, s), Span(b, m, s), Span(a, k, s - 1), Span(b, m, s - 1),
                   Block(a, k + s - 1), Block(b, m + s - 1));
  }

  lemma SpanEnd(run: StrideRun, k: nat, s: nat)
    requires run.stride == run.len && DenseFits(run) && 0 < s && k + s <= run.count
    ensures Span(run, k, s).basic.len == Span(run, k, s - 1).basic.len + run.len
    ensures Block(run, k + s - 1).basic.addr == Span(run, k, s).basic.addr + Span(run, k, s - 1).basic.len
  {
    SpanFits(run, k, s - 1);
    DenseBlock(run, k + s - 1);
    assert s * run.len == (s - 1) * run.len + run.len;
  }

  /** One merged descriptor moves the bytes of its blocks, in order. */
  lemma {:induction false} SpanBytes(a: StrideRun, b: StrideRun, k: nat, m: nat, s: nat)
    requires a.stride == a.len && b.stride == b.len && a.len == b.len && DenseFits(a) && DenseFits(b)
    requires k + s <= a.count && m + s <= b.count
    ensures MovedBytes(BlockSeq(a, k, s), BlockSeq(b, m, s)) == PairBytes(Span(a, k, s), Span(b, m, s))
    decreases s
  {
    if s > 0 {
      SpanBytes(a, b, k, m, s - 1);
      SpanSplit(a, b, k, m, s);
      assert BlockSeq(a, k, s) == BlockSeq(a, k, s - 1) + [Block(a, k + s - 1)];
      assert BlockSeq(b, m, s) == BlockSeq(b, m, s - 1) + [Block(b, m + s - 1)];
      MovedBytesAppend(BlockSeq(a, k, s - 1), BlockSeq(b, m, s - 1), [Block(a, k + s - 1)], [Block(b, m + s - 1)]);
      MovedOne(Block(a, k + s - 1), Block(b, m + s - 1));
    }
  }

  lemma MovedOne(d: MetaDesc, e: MetaDesc)
    ensures MovedBytes([d], [e]) == PairBytes(d, e)
  {
    assert [d][1..] == [] && [e][1..] == [];
    assert PairBytes(d, e) + [] == PairBytes(d, e);
  }

  lemma {:induction false} BlockSeqLen(run: StrideRun, k: nat, s: nat)
    ensures TotalLen(BlockSeq(run, k, s)) == RunBytes(run, s)
    decreases s
  {
    hide Block;
    if s > 0 {
      BlockSeqLen(run, k, s - 1);
      BlockLen(run, k + s - 1);
      assert BlockSeq(run, k, s) == BlockSeq(run, k, s - 1) + [Block(run, k + s - 1)];
      TotalLenAppend(BlockSeq(run, k, s - 1), [Block(run, k + s - 1)]);
      assert [Block(run, k + s - 1)][1..] == [];
      MulStep(run.len, s);
    }
  }

  lemma MulStep(a: nat, s: nat)
    requires s > 0
    ensures a * s == a * (s - 1) + a
  {
  }

  // ---- Indices of a merged sequence ----

  // While both indices stay below 2^32 a continuation bit means the next index.
  lemma {:induction false} Consecutive(us: seq<u32>, vs: seq<u32>, i: nat, n: nat, j: nat)
    requires |us| == |vs| && i < |us| && i + 1 + n <= |us| && us[i] + n < TWO_32 && vs[i] + n < TWO_32
    requires j <= CB.RunLength(us, vs, i + 1, n)
    ensures j <= n && us[i + j] == us[i] + j && vs[i + j] == vs[i] + j
    decreases j
  {
    CB.RunLengthBound(us, vs, i + 1, n);
    if j > 0 {
      Consecutive(us, vs, i, n, j - 1);
      CB.RunLengthContinues(us, vs, i + 1, n, i + j);
    }
  }

  // A pair that passes the checks has no negative index.
  lemma HeadsNotNegative(lr: seq<StrideRun>, rr: seq<StrideRun>, li: seq<i32>, ri: seq<i32>, i: nat, a: StrideRun,
                         b: StrideRun)
    requires Numbered(lr) && Numbered(rr) && NeverNegative(lr, rr)
    requires i < |li| == |ri| && Heads(lr, rr, li, ri, i, a, b)
    ensures 0 <= li[i] && 0 <= ri[i]
  {
    hide Numbered;
    assert a in lr && b in rr && InRun(a, AsSize(li[i])) && InRun(b, AsSize(ri[i]));
  }

  /** The pairs of a merged sequence name consecutive blocks of the two head runs. */
  lemma SequenceIndices(lr: seq<StrideRun>, rr: seq<StrideRun>, li: seq<i32>, ri: seq<i32>, skip: bool, i: nat,
                        a: StrideRun, b: StrideRun, j: nat)
    requires Numbered(lr) && Numbered(rr)
    requires MergeSafe(lr, rr, skip) && i < |li| == |ri| && Heads(lr, rr, li, ri, i, a, b)
    requires j < SeqCount(a, b, li, ri, skip, i)
    ensures 0 <= li[i] && 0 <= ri[i]
    ensures li[i + j] == li[i] + j && ri[i + j] == ri[i] + j
  {
    var us, vs := Unsigned(li), Unsigned(ri);
    var cap := Cap(a, b, li, ri, i);
    HeadsNotNegative(lr, rr, li, ri, i, a, b);
    if j > 0 {
      assert Mergeable(a, b, skip);
      assert a in lr && b in rr;
      Consecutive(us, vs, i, cap - 1, j);
    }
  }

  lemma HeadBlocks(runs: seq<StrideRun>, idx: nat, j: nat)
    requires Numbered(runs) && idx < FlatSize(runs) && InRun(runs[RunOf(runs, idx)], idx + j)
    ensures idx + j < |Expand(runs)|
    ensures Expand(runs)[idx + j] == Block(runs[RunOf(runs, idx)], idx - runs[RunOf(runs, idx)].startIdx + j)
  {
    var k := RunOf(runs, idx);
    ExpandAt(runs, k, idx - runs[k].startIdx + j);
  }

  // What a merge result means for the indices it was made from.
  ghost predicate Means(m: Merged, local: seq<MetaDesc>, remote: seq<MetaDesc>, li: seq<i32>, ri: seq<i32>, skip: bool)
    requires |li| == |ri| && (m.Accepted? ==> |m.local| == |m.remote|)
  {
    && (m.Accepted? <==> AllValid(local, remote, li, ri))
    && (m.Accepted? ==>
          && MovedBytes(m.local, m.remote) == MovedBytes(OneByOne(local, li), OneByOne(remote, ri))
          && m.bytes == TotalLen(OneByOne(local, li))
          && (skip ==> m.local == OneByOne(local, li) && m.remote == OneByOne(remote, ri)))
  }

  lemma MeansCons(d: MetaDesc, e: MetaDesc, n: nat, rest: Merged, local: seq<MetaDesc>, remote: seq<MetaDesc>,
                  li: seq<i32>, ri: seq<i32>, li': seq<i32>, ri': seq<i32>, skip: bool)
    requires |li| == |ri| && |li'| == |ri'| && (rest.Accepted? ==> |rest.local| == |rest.remote|)
    requires Means(Accepted([d], [e], n), local, remote, li, ri, skip) && Means(rest, local, remote, li', ri', skip)
    ensures Means(Cons(d, e, n, rest), local, remote, li + li', ri + ri', skip)
  {
    var ls, rs := li + li', ri + ri';
    if rest.Accepted? {
      forall j | 0 <= j < |ls| ensures PairValid(local, remote, ls[j], rs[j]) {
        if j >= |li| { assert ls[j] == li'[j - |li|] && rs[j] == ri'[j - |li|]; }
      }
      assert OneByOne(local, ls) == OneByOne(local, li) + OneByOne(local, li');
      assert OneByOne(remote, rs) == OneByOne(remote, ri) + OneByOne(remote, ri');
      MovedBytesAppend([d], [e], rest.local, rest.remote);
      MovedBytesAppend(OneByOne(local, li), OneByOne(remote, ri), OneByOne(local, li'), OneByOne(remote, ri'));
      TotalLenAppend(OneByOne(local, li), OneByOne(local, li'));
    } else {
      var j :| 0 <= j < |li'| && !PairValid(local, remote, li'[j], ri'[j]);
      assert ls[|li| + j] == li'[j] && rs[|li| + j] == ri'[j];
    }
  }

  // The merged sequence at pair i names blocks k, k + 1, ... of a and m, m + 1, ... of b.
  lemma SequenceBlocks(lr: seq<StrideRun>, rr: seq<StrideRun>, li: seq<i32>, ri: seq<i32>, skip: bool, i: nat,
                       a: StrideRun, b: StrideRun)
    requires Numbered(lr) && Numbered(rr)
    requires MergeSafe(lr, rr, skip) && i < |li| == |ri| && Heads(lr, rr, li, ri, i, a, b)
    ensures a.startIdx <= li[i] && b.startIdx <= ri[i]
    ensures var s := SeqCount(a, b, li, ri, skip, i);
            && AllValid(Expand(lr), Expand(rr), li[i..i + s], ri[i..i + s])
            && IsBlocks(Expand(lr), li[i..i + s], a, li[i] - a.startIdx)
            && IsBlocks(Expand(rr), ri[i..i + s], b, ri[i] - b.startIdx)
  {
    hide Expand, Block, RunOf, MergeSafe, Numbered, SeqCount, Mergeable, InRun, Merge;
    var s := SeqCount(a, b, li, ri, skip, i);
    PairBlocks(lr, rr, li, ri, skip, i, a, b, 0);
    var ls, rs := li[i..i + s], ri[i..i + s];
    forall j | 0 <= j < s
      ensures PairValid(Expand(lr), Expand(rr), ls[j], rs[j])
      ensures Expand(lr)[ls[j]] == Block(a, li[i] - a.startIdx + j)
      ensures Expand(rr)[rs[j]] == Block(b, ri[i] - b.startIdx + j)
    {
      PairBlocks(lr, rr, li, ri, skip, i, a, b, j);
    }
  }

  // The indices name blocks k, k + 1, ... of a run.
  ghost predicate IsBlocks(blocks: seq<MetaDesc>, indices: seq<i32>, run: StrideRun, k: nat) {
    forall j :: 0 <= j < |indices| ==> 0 <= indices[j] < |blocks| && blocks[indices[j]] == Block(run, k + j)
  }

  lemma SliceIsBlocks(blocks: seq<MetaDesc>, indices: seq<i32>, run: StrideRun, k: nat)
    requires IsBlocks(blocks, indices, run, k)
    ensures OneByOne(blocks, indices) == BlockSeq(run, k, |indices|)
  {
    hide Block;
  }

  lemma PairBlocks(lr: seq<StrideRun>, rr: seq<StrideRun>, li: seq<i32>, ri: seq<i32>, skip: bool, i: nat, a: StrideRun,
                   b: StrideRun, j: nat)
    requires Numbered(lr) && Numbered(rr)
    requires MergeSafe(lr, rr, skip) && i < |li| == |ri| && Heads(lr, rr, li, ri, i, a, b)
    requires j < SeqCount(a, b, li, ri, skip, i)
    ensures a.startIdx <= li[i] && b.startIdx <= ri[i]
    ensures PairValid(Expand(lr), Expand(rr), li[i + j], ri[i + j])
    ensures Expand(lr)[li[i + j]] == Block(a, li[i] - a.startIdx + j)
    ensures Expand(rr)[ri[i + j]] == Block(b, ri[i] - b.startIdx + j)
  {
    hide Expand, Block, RunOf, MergeSafe, Numbered, Mergeable, Merge, CB.RunLength;
    SequenceIndices(lr, rr, li, ri, skip, i, a, b, j);
    HeadBlocks(lr, li[i], j);
    HeadBlocks(rr, ri[i], j);
    BlockLen(a, li[i] - a.startIdx + j);
    BlockLen(b, ri[i] - b.startIdx + j);
  }

  lemma BlockLen(run: StrideRun, k: nat)
    ensures Block(run, k).basic.len == run.len
  {
  }

  // One step: the merged head descriptor against the blocks it stands for.
  lemma HeadMeaning(lr: seq<StrideRun>, rr: seq<StrideRun>, li: seq<i32>, ri: seq<i32>, skip: bool, i: nat,
                    a: StrideRun, b: StrideRun)
    requires WellFormed(lr) && WellFormed(rr)
    requires MergeSafe(lr, rr, skip) && i < |li| == |ri| && Heads(lr, rr, li, ri, i, a, b)
    ensures var s := SeqCount(a, b, li, ri, skip, i);
            Means(Accepted([GetMetaDesc(a, AsSize(li[i]), s)], [GetMetaDesc(b, AsSize(ri[i]), s)], RunBytes(a, s)),
                  Expand(lr), Expand(rr), li[i..i + s], ri[i..i + s], skip)
  {
    hide Expand, MergeSafe, Numbered, RunOf, Block, GetMetaDesc, RunBytes, CB.RunLength, Span, MovedBytes, PairBytes,
      IsBlocks;
    var s := SeqCount(a, b, li, ri, skip, i);
    SequenceBlocks(lr, rr, li, ri, skip, i, a, b);
    var k, m := li[i] - a.startIdx, ri[i] - b.startIdx;
    SliceIsBlocks(Expand(lr), li[i..i + s], a, k);
    SliceIsBlocks(Expand(rr), ri[i..i + s], b, m);
    BlockSeqLen(a, k, s);
    var d, e := GetMetaDesc(a, AsSize(li[i]), s), GetMetaDesc(b, AsSize(ri[i]), s);
    if s == 1 {
      GetOneBlock(a, li[i]);
      GetOneBlock(b, ri[i]);
      assert BlockSeq(a, k, 1) == [d] && BlockSeq(b, m, 1) == [e];
    } else {
      GetIsSpan(a, li[i], s);
      GetIsSpan(b, ri[i], s);
      SpanBytes(a, b, k, m, s);
      MovedOne(d, e);
    }
  }

  /**
   Merging preserves meaning: from every pair on, it accepts exactly the index lists whose pairs are
   all in range with equal block lengths, and then moves the byte pairs of one block per index, in
   order, and counts their bytes. With merging switched off it emits exactly those blocks.
   */
  lemma {:induction false} MergePreservesMeaning(lr: seq<StrideRun>, rr: seq<StrideRun>, li: seq<i32>, ri: seq<i32>,
                                                 skip: bool, i: nat)
    requires WellFormed(lr) && WellFormed(rr)
    requires MergeSafe(lr, rr, skip) && i <= |li| == |ri|
    ensures Means(Merge(lr, rr, li, ri, skip, i), Expand(lr), Expand(rr), li[i..], ri[i..], skip)
    decreases |li| - i
  {
    hide Expand, MergeSafe, CB.RunLength, GetMetaDesc, RunBytes, SeqCount, RunOf, Numbered, Merge, Means, Cons, Block;
    if i == |li| {
      MergeNothing(lr, rr, li, ri, skip);
    } else if AsSize(li[i]) < FlatSize(lr) && AsSize(ri[i]) < FlatSize(rr) &&
              lr[RunOf(lr, AsSize(li[i]))].len == rr[RunOf(rr, AsSize(ri[i]))].len
    {
      var a, b := lr[RunOf(lr, AsSize(li[i]))], rr[RunOf(rr, AsSize(ri[i]))];
      var s := SeqCount(a, b, li, ri, skip, i);
      MergeUnfold(lr, rr, li, ri, skip, i, a, b);
      HeadMeaning(lr, rr, li, ri, skip, i, a, b);
      MergePreservesMeaning(lr, rr, li, ri, skip, i + s);
      assert li[i..] == li[i..i + s] + li[i + s..] && ri[i..] == ri[i..i + s] + ri[i + s..];
      MeansCons(GetMetaDesc(a, AsSize(li[i]), s), GetMetaDesc(b, AsSize(ri[i]), s), RunBytes(a, s),
                Merge(lr, rr, li, ri, skip, i + s), Expand(lr), Expand(rr),
                li[i..i + s], ri[i..i + s], li[i + s..], ri[i + s..], skip);
    } else {
      MergeRejects(lr, rr, li, ri, skip, i);
    }
  }

  // A head pair that fails a check is not a valid pair.
  lemma MergeRejects(lr: seq<StrideRun>, rr: seq<StrideRun>, li: seq<i32>, ri: seq<i32>, skip: bool, i: nat)
    requires Numbered(lr) && Numbered(rr) && i < |li| == |ri|
    requires AsSize(li[i]) < FlatSize(lr) && AsSize(ri[i]) < FlatSize(rr) ==>
               lr[RunOf(lr, AsSize(li[i]))].len != rr[RunOf(rr, AsSize(ri[i]))].len
    ensures Means(Merge(lr, rr, li, ri, skip, i), Expand(lr), Expand(rr), li[i..], ri[i..], skip)
  {
    hide Expand, RunOf, Numbered;
    ExpandSize(lr);
    ExpandSize(rr);
    assert li[i..][0] == li[i] && ri[i..][0] == ri[i];
    if 0 <= li[i] < FlatSize(lr) && 0 <= ri[i] < FlatSize(rr) {
      HeadBlocks(lr, li[i], 0);
      HeadBlocks(rr, ri[i], 0);
    }
    assert !PairValid(Expand(lr), Expand(rr), li[i..][0], ri[i..][0]);
  }

  lemma MergeNothing(lr: seq<StrideRun>, rr: seq<StrideRun>, li: seq<i32>, ri: seq<i32>, skip: bool)
    requires Numbered(lr) && Numbered(rr) && |li| == |ri|
    ensures Means(Merge(lr, rr, li, ri, skip, |li|), Expand(lr), Expand(rr), li[|li|..], ri[|li|..], skip)
  {
    assert OneByOne(Expand(lr), li[|li|..]) == [] && OneByOne(Expand(rr), ri[|li|..]) == [];
  }

  // ---- The condition is exact ----

  // The `int` whose bits are those of the block number x.
  function Named(x: u32): (i: i32)
    ensures AsUnsigned(i) == x
  {
    if x < TWO_31 then x else x - TWO_32
  }

  // Two consecutive blocks of a and of b, one of them unreachable by an `int`, are merged all the same.
  lemma MergesAcross(lr: seq<StrideRun>, rr: seq<StrideRun>, a: StrideRun, b: StrideRun, x: u32, y: u32)
    requires Numbered(lr) && Numbered(rr) && a in lr && b in rr && a.len == b.len && Mergeable(a, b, false)
    requires x < TWO_31 && y < TWO_31 && InRun(a, x) && InRun(a, x + 1) && InRun(b, y) && InRun(b, y + 1)
    requires x + 1 == TWO_31 || y + 1 == TWO_31
    ensures var li, ri := [x, Named(x + 1)], [y, Named(y + 1)];
            && Merge(lr, rr, li, ri, false, 0).Accepted?
            && !AllValid(Expand(lr), Expand(rr), li, ri)
  {
    hide RunOf, Expand, GetMetaDesc, RunBytes;
    var li, ri := [x, Named(x + 1)], [y, Named(y + 1)];
    var k :| 0 <= k < |lr| && lr[k] == a;
    var m :| 0 <= m < |rr| && rr[m] == b;
    ExpandAt(lr, k, x - a.startIdx);
    ExpandAt(rr, m, y - b.startIdx);
    InRunUnique(lr, x, k, RunOf(lr, x));
    InRunUnique(rr, y, m, RunOf(rr, y));
    CB.RunLengthUnique(Unsigned(li), Unsigned(ri), 1, 1, 1);
    assert SeqCount(a, b, li, ri, false, 0) == 2;
    MergeUnfold(lr, rr, li, ri, false, 0, a, b);
    assert !PairValid(Expand(lr), Expand(rr), li[1], ri[1]);
  }

  // The index that reaches a block of the run, negative if only a negative one does.
  function IndexInto(run: StrideRun): (i: i32)
    requires Reached(run) && 0 < run.count && run.startIdx + run.count < TWO_64
    ensures InRun(run, AsSize(i))
  {
    if run.startIdx < TWO_31 then run.startIdx else run.startIdx + run.count - 1 - TWO_64
  }

  // One pair of indices whose blocks have equal length is accepted, negative or not.
  lemma PairAccepted(lr: seq<StrideRun>, rr: seq<StrideRun>, a: StrideRun, b: StrideRun, x: i32, y: i32, skip: bool)
    requires Numbered(lr) && Numbered(rr) && a in lr && b in rr && a.len == b.len
    requires InRun(a, AsSize(x)) && InRun(b, AsSize(y))
    ensures Merge(lr, rr, [x], [y], skip, 0).Accepted?
  {
    hide RunOf, Expand, GetMetaDesc, RunBytes;
    var k :| 0 <= k < |lr| && lr[k] == a;
    var m :| 0 <= m < |rr| && rr[m] == b;
    ExpandAt(lr, k, AsSize(x) - a.startIdx);
    ExpandAt(rr, m, AsSize(y) - b.startIdx);
    InRunUnique(lr, AsSize(x), k, RunOf(lr, AsSize(x)));
    InRunUnique(rr, AsSize(y), m, RunOf(rr, AsSize(y)));
    assert Heads(lr, rr, [x], [y], 0, a, b);
    MergeUnfold(lr, rr, [x], [y], skip, 0, a, b);
  }

  lemma NegativeAccepted(lr: seq<StrideRun>, rr: seq<StrideRun>, skip: bool) returns (x: i32, y: i32)
    requires Numbered(lr) && Numbered(rr) && !NeverNegative(lr, rr)
    ensures Merge(lr, rr, [x], [y], skip, 0).Accepted? && (x < 0 || y < 0)
  {
    hide Merge;
    var a, b :| a in lr && b in rr && a.len == b.len &&
                ((TakesNegative(a) && Reached(b)) || (TakesNegative(b) && Reached(a)));
    RunBounds(lr, a);
    RunBounds(rr, b);
    x := if TakesNegative(a) && Reached(b) then a.startIdx + a.count - 1 - TWO_64 else IndexInto(a);
    y := if TakesNegative(a) && Reached(b) then IndexInto(b) else b.startIdx + b.count - 1 - TWO_64;
    PairAccepted(lr, rr, a, b, x, y, skip);
  }

  lemma RunBounds(runs: seq<StrideRun>, run: StrideRun)
    requires Numbered(runs) && run in runs
    ensures 0 < run.count && run.startIdx + run.count < TWO_64
  {
    var k :| 0 <= k < |runs| && runs[k] == run;
    if k < |runs| - 1 { StartsGrow(runs, k, |runs| - 1); }
  }

  lemma MergeUnsafe(lr: seq<StrideRun>, rr: seq<StrideRun>, skip: bool) returns (li: seq<i32>, ri: seq<i32>)
    requires Numbered(lr) && Numbered(rr) && !MergeSafe(lr, rr, skip)
    ensures |li| == |ri| && Merge(lr, rr, li, ri, skip, 0).Accepted? && !AllValid(Expand(lr), Expand(rr), li, ri)
  {
    if !NeverNegative(lr, rr) {
      var v, w := NegativeAccepted(lr, rr, skip);
      li, ri := [v], [w];
      assert !PairValid(Expand(lr), Expand(rr), li[0], ri[0]);
      return;
    }
    var a, b :| a in lr && b in rr && a.len == b.len && Mergeable(a, b, skip) &&
                2 <= a.count && 2 <= b.count && a.startIdx < TWO_31 && b.startIdx < TWO_31 &&
                !(a.startIdx + a.count <= TWO_31 && b.startIdx + b.count <= TWO_31);
    var x := if a.startIdx + a.count > TWO_31 then TWO_31 - 1 else a.startIdx;
    var y := if a.startIdx + a.count > TWO_31 then b.startIdx else TWO_31 - 1;
    MergesAcross(lr, rr, a, b, x, y);
    li, ri := [x, Named(x + 1)], [y, Named(y + 1)];
  }

  // One dense run of 2^31 + 1 one-byte blocks on both sides: the last index merges with a negative one.
  lemma NegativeIndexExample()
    ensures var runs := [StrideRun(0, 1, 0, 0, 1, TWO_31 + 1, 0)];
            var indices: seq<i32> := [TWO_31 - 1, -TWO_31];
            Merge(runs, runs, indices, indices, false, 0).Accepted?
            && !AllValid(Expand(runs), Expand(runs), indices, indices)
  {
    var run := StrideRun(0, 1, 0, 0, 1, TWO_31 + 1, 0);
    assert Numbered([run]);
    MergesAcross([run], [run], run, run, TWO_31 - 1, TWO_31 - 1);
    assert Named(TWO_31) == -TWO_31;
  }

  /**
   Exactly when merging preserves meaning for every pair of index lists: when no mergeable pair of
   runs crosses block 2^31, and no pair of runs that could be transferred holds a block that a negative
   index is taken for. The condition is on the prepared lists alone.
   */
  lemma MergeMeaningIff(lr: seq<StrideRun>, rr: seq<StrideRun>, skip: bool)
    requires WellFormed(lr) && WellFormed(rr)
    ensures MergeSafe(lr, rr, skip) <==>
            forall li: seq<i32>, ri: seq<i32> :: |li| == |ri| ==>
              Means(Merge(lr, rr, li, ri, skip, 0), Expand(lr), Expand(rr), li, ri, skip)
  {
    if MergeSafe(lr, rr, skip) {
      forall li: seq<i32>, ri: seq<i32> | |li| == |ri|
        ensures Means(Merge(lr, rr, li, ri, skip, 0), Expand(lr), Expand(rr), li, ri, skip)
      {
        MergePreservesMeaning(lr, rr, li, ri, skip, 0);
        assert li[0..] == li && ri[0..] == ri;
      }
    } else {
      var li, ri := MergeUnsafe(lr, rr, skip);
      assert !Means(Merge(lr, rr, li, ri, skip, 0), Expand(lr), Expand(rr), li, ri, skip);
    }
  }

  /** Lists of at most 2^31 blocks, which is every list built from descriptors, always satisfy it. */
  lemma SmallListsAreSafe(lr: seq<StrideRun>, rr: seq<StrideRun>, skip: bool)
    requires Numbered(lr) && Numbered(rr) && FlatSize(lr) <= TWO_31 && FlatSize(rr) <= TWO_31
    ensures MergeSafe(lr, rr, skip)
  {
    forall a, b | a in lr && b in rr
      ensures a.startIdx + a.count <= TWO_31 && b.startIdx + b.count <= TWO_31
    {
      var k :| 0 <= k < |lr| && lr[k] == a;
      var m :| 0 <= m < |rr| && rr[m] == b;
      if k < |lr| - 1 { StartsGrow(lr, k, |lr| - 1); }
      if m < |rr| - 1 { StartsGrow(rr, m, |rr| - 1); }
    }
  }

  // A run of 2^64 - 1 blocks takes the index -2 for its last block.
  lemma HugeListExample()
    ensures var runs := [StrideRun(0, 1, 0, 0, 1, MAX_64, 0)];
            Numbered(runs) && RunSize(FlatSize(runs), 1) > 0
            && Merge(runs, runs, [-2], [-2], false, 0).Accepted? && !AllValid(Expand(runs), Expand(runs), [-2], [-2])
  {
    var run := StrideRun(0, 1, 0, 0, 1, MAX_64, 0);
    assert Numbered([run]) && FlatSize([run]) == MAX_64;
    RunSizeIff(MAX_64, 1);
    PairAccepted([run], [run], run, run, -2, -2, false);
    assert !PairValid(Expand([run]), Expand([run]), [-2][0], [-2][0]);
  }
}
