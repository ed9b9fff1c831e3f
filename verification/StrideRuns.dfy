/**
 Compressed descriptor lists. A run stands for `count` blocks of `len` bytes whose starts are
 `stride` bytes apart, and `startIdx` is the flat index of its first block.
 */
module StrideRuns {
  import opened MachineInt
  import opened Descriptors

  datatype StrideRun = StrideRun(addr: u64, len: u64, devId: u64, meta: Meta,
                                 stride: u64, count: u64, startIdx: u64)

  // Block k of a run, in 64-bit address arithmetic.
  function Block(run: StrideRun, k: nat): MetaDesc {
    MetaDesc(BasicDesc((run.addr + k * run.stride) % TWO_64, run.len, run.devId), run.meta)
  }

  function Blocks(run: StrideRun): (bs: seq<MetaDesc>)
    ensures |bs| == run.count
    ensures forall k :: 0 <= k < run.count ==> bs[k] == Block(run, k)
  {
    seq(run.count, k requires 0 <= k => Block(run, k))
  }

  // The list of blocks a run list stands for: its meaning.
  function Expand(runs: seq<StrideRun>): seq<MetaDesc> {
    if runs == [] then [] else Expand(runs[..|runs| - 1]) + Blocks(runs[|runs| - 1])
  }

  // Runs are non-empty and number their blocks consecutively from `from`.
  ghost predicate NumberedFrom(runs: seq<StrideRun>, from: nat) {
    && (forall i :: 0 <= i < |runs| ==> runs[i].count > 0)
    && (runs != [] ==> runs[0].startIdx == from)
    && (forall i :: 0 < i < |runs| ==> runs[i].startIdx == runs[i - 1].startIdx + runs[i - 1].count)
    && (runs != [] ==> runs[|runs| - 1].startIdx + runs[|runs| - 1].count < TWO_64)
  }

  ghost predicate Numbered(runs: seq<StrideRun>) {
    NumberedFrom(runs, 0)
  }

  function FlatSize(runs: seq<StrideRun>): nat {
    if runs == [] then 0 else runs[|runs| - 1].startIdx + runs[|runs| - 1].count
  }

  predicate InRun(run: StrideRun, idx: nat) {
    run.startIdx <= idx < run.startIdx + run.count
  }

  lemma NumberedPrefix(runs: seq<StrideRun>)
    requires Numbered(runs) && runs != []
    ensures Numbered(runs[..|runs| - 1])
    ensures FlatSize(runs[..|runs| - 1]) == runs[|runs| - 1].startIdx
  {
    var n := |runs|;
    assert n > 1 ==> runs[n - 1].startIdx == runs[n - 2].startIdx + runs[n - 2].count;
  }

  /** The flat index space: block k of a run is entry `startIdx + k` of the expanded list. */
  lemma {:induction false} ExpandAt(runs: seq<StrideRun>, i: nat, k: nat)
    requires Numbered(runs) && i < |runs| && k < runs[i].count
    ensures |Expand(runs)| == FlatSize(runs)
    ensures runs[i].startIdx + k < FlatSize(runs)
    ensures Expand(runs)[runs[i].startIdx + k] == Block(runs[i], k)
    decreases |runs|
  {
    hide Block;
    var n := |runs|;
    NumberedPrefix(runs);
    ExpandSize(runs[..n - 1]);
    if i < n - 1 {
      ExpandAt(runs[..n - 1], i, k);
    }
  }

  lemma {:induction false} ExpandSize(runs: seq<StrideRun>)
    requires Numbered(runs)
    ensures |Expand(runs)| == FlatSize(runs)
  {
    hide Block;
    if runs != [] {
      NumberedPrefix(runs);
      ExpandSize(runs[..|runs| - 1]);
    }
  }

  lemma {:induction false} StartsGrow(runs: seq<StrideRun>, i: nat, j: nat)
    requires Numbered(runs) && i < j < |runs|
    ensures runs[i].startIdx + runs[i].count <= runs[j].startIdx
    decreases j
  {
    if i < j - 1 { StartsGrow(runs, i, j - 1); }
  }

  /** Every flat index lies in exactly one run. */
  lemma InRunUnique(runs: seq<StrideRun>, idx: nat, i: nat, j: nat)
    requires Numbered(runs) && i < |runs| && j < |runs| && InRun(runs[i], idx) && InRun(runs[j], idx)
    ensures i == j
  {
    if i < j { StartsGrow(runs, i, j); } else if j < i { StartsGrow(runs, j, i); }
  }

  // The run that holds a flat index.
  ghost function RunOf(runs: seq<StrideRun>, idx: nat): (k: nat)
    requires Numbered(runs) && idx < FlatSize(runs)
    ensures k < |runs| && InRun(runs[k], idx)
  {
    var n := |runs|;
    if runs[n - 1].startIdx <= idx then n - 1
    else NumberedPrefix(runs); RunOf(runs[..n - 1], idx)
  }

  // getMetaDesc: `size` blocks from flat index idx as one descriptor.
  function GetMetaDesc(run: StrideRun, idx: u64, size: u64): MetaDesc {
    MetaDesc(BasicDesc(Add64(run.addr, Mul64(Sub64(idx, run.startIdx), run.stride)),
                       Mul64(run.len, size), run.devId), run.meta)
  }

  lemma GetOneBlock(run: StrideRun, idx: u64)
    requires InRun(run, idx)
    ensures GetMetaDesc(run, idx, 1) == Block(run, idx - run.startIdx)
  {
    var k := idx - run.startIdx;
    MulMono(0, k, run.stride);
    AddressOf(run.addr, k * run.stride);
  }

  lemma AddressOf(addr: u64, offset: nat)
    ensures Add64(addr, offset % TWO_64) == (addr + offset) % TWO_64
  {
    AddMod(offset, addr);
  }

  // The rounded-up mean run size, as the code computes it: the sum wraps at 2^64.
  function RunSize(size: nat, n: nat): nat
    requires n > 0
  {
    (size + n - 1) % TWO_64 / n
  }

  /**
   Exactly when the run size is positive, so that the probe can divide by it: when the number of blocks
   and the number of runs together do not exceed 2^64.
   */
  lemma RunSizeIff(size: nat, n: nat)
    requires 0 < size < TWO_64 && 0 < n < TWO_64
    ensures RunSize(size, n) > 0 <==> size + n <= TWO_64
  {
    if size + n <= TWO_64 {
      ModUnique(size + n - 1, 0, size + n - 1);
      DivPositive(size + n - 1, n);
    } else {
      ModUnique(size + n - 1, 1, size + n - 1 - TWO_64);
      DivSmall(size + n - 1 - TWO_64, n);
    }
  }

  lemma DivPositive(a: nat, n: nat)
    requires 0 < n <= a
    ensures a / n > 0
  {
  }

  lemma DivSmall(a: nat, n: nat)
    requires a < n
    ensures a / n == 0
  {
  }

  // A positive run size keeps the probe inside the list.
  lemma CeilingProbe(size: nat, n: nat, idx: nat)
    requires 0 < n && idx < size && size + n <= TWO_64
    ensures RunSize(size, n) > 0 && idx / RunSize(size, n) < n
  {
    ModUnique(size + n - 1, 0, size + n - 1);
    DivPositive(size + n - 1, n);
    Ceiling(size, n, (size + n - 1) / n, idx);
  }

  lemma Ceiling(size: nat, n: nat, r: nat, idx: nat)
    requires 0 < n && idx < size && r == (size + n - 1) / n > 0
    ensures idx / r < n
  {
    assert r * n >= size by {
      assert size + n - 1 == r * n + (size + n - 1) % n;
    }
    if idx / r >= n {
      var q := idx / r;
      assert idx >= q * r;
      MulMono(n, q, r);
    }
  }

  lemma ProbeInside(size: nat, n: nat, idx: nat)
    requires 0 < n < TWO_64 && idx < size < TWO_64 && RunSize(size, n) > 0
    ensures idx / RunSize(size, n) < n
  {
    hide RunSize;
    RunSizeIff(size, n);
    CeilingProbe(size, n, idx);
  }

  lemma MulMono(a: nat, b: nat, c: nat)
    requires a <= b
    ensures a * c <= b * c
  {
  }

  // The first guess: the place of the index if all runs had the mean size.
  method Probe(size: u64, n: nat, idx: u64) returns (mid: nat)
    requires 0 < n < TWO_64 && idx < size && RunSize(size, n) > 0
    ensures mid < n
  {
    ProbeInside(size, n, idx);
    mid := idx / RunSize(size, n);
  }

  // The search starts at the failed guess.
  method SearchRuns(runs: seq<StrideRun>, idx: u64, probe: nat) returns (k: nat)
    requires Numbered(runs) && idx < FlatSize(runs) && probe < |runs|
    ensures k < |runs| && k == RunOf(runs, idx)
  {
    var lo, hi, mid := 0, |runs| - 1, probe;
    ghost var first := true;
    while lo < hi
      invariant 0 <= lo <= RunOf(runs, idx) <= hi < |runs|
      invariant lo <= mid <= hi
      invariant first || mid == (lo + hi + 1) / 2
      decreases hi - lo, first
    {
      if runs[mid].startIdx <= idx {
        if RunOf(runs, idx) < mid { StartsGrow(runs, RunOf(runs, idx), mid); }
        lo := mid;
      } else {
        if mid < RunOf(runs, idx) { StartsGrow(runs, mid, RunOf(runs, idx)); }
        hi := mid - 1;
      }
      mid := (lo + hi + 1) / 2;
      first := false;
    }
    k := lo;
  }

  /**
   The run that holds a flat index: a first probe that assumes uniform runs, then binary search.
   With a positive run size the probe is always in bounds.
   */
  method Find(runs: seq<StrideRun>, idx: u64) returns (k: nat)
    requires Numbered(runs) && idx < FlatSize(runs) && |runs| < TWO_64
    requires RunSize(FlatSize(runs), |runs|) > 0
    ensures k < |runs| && InRun(runs[k], idx) && k == RunOf(runs, idx)
  {
    hide RunSize;
    var mid := Probe(FlatSize(runs), |runs|, idx);
    if Sub64(idx, runs[mid].startIdx) < runs[mid].count {
      if mid < |runs| - 1 { StartsGrow(runs, mid, |runs| - 1); }
      InRunUnique(runs, idx, mid, RunOf(runs, idx));
      return mid;
    }
    k := SearchRuns(runs, idx, mid);
  }

  // A dense run ends inside the 64-bit address space.
  ghost predicate DenseFits(run: StrideRun) {
    run.stride == run.len ==> run.addr + run.count * run.len < TWO_64
  }

  ghost predicate WellFormed(runs: seq<StrideRun>) {
    && Numbered(runs)
    && forall i :: 0 <= i < |runs| ==> DenseFits(runs[i])
  }
}
