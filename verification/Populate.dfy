/**
 The three `populate` overloads: a transfer list, checked against the sorted section list of one
 memory type and backend, gets the backend metadata of the section that covers each element.

 - `Walk` resolves every element by walking the sections forward from the previous one.
 - `WalkCompressed` also compresses the answers into strided runs.
 - `ResolveRuns` takes runs that are strided already and checks each by its whole span.
 */
module Populate {
  import opened MachineInt
  import opened Descriptors
  import opened StrideRuns
  import opened Coverage

  // Each element carries the metadata of a section that covers it: the simple specification.
  ghost predicate IsAnswer(base: seq<SectionDesc>, query: seq<BasicDesc>, resp: seq<MetaDesc>) {
    && |resp| == |query|
    && forall i :: 0 <= i < |query| ==> resp[i].basic == query[i] && MetaFor(base, resp[i])
  }

  ghost predicate MetaFor(base: seq<SectionDesc>, d: MetaDesc) {
    exists k :: 0 <= k < |base| && Covers(base[k].basic, d.basic) && base[k].meta == d.meta
  }

  lemma MetaForAt(base: seq<SectionDesc>, d: MetaDesc, k: nat)
    requires k < |base| && Covers(base[k].basic, d.basic) && base[k].meta == d.meta
    ensures MetaFor(base, d) && Covered(base, d.basic)
  {
  }

  /** Over disjoint registrations and positive lengths there is only one answer. */
  lemma AnswerUnique(base: seq<SectionDesc>, query: seq<BasicDesc>, r: seq<MetaDesc>, r': seq<MetaDesc>)
    requires Registered(base) && (forall i :: 0 <= i < |query| ==> query[i].len > 0)
    requires IsAnswer(base, query, r) && IsAnswer(base, query, r')
    ensures r == r'
  {
    forall i | 0 <= i < |query| ensures r[i] == r'[i] {
      assert MetaFor(base, r[i]) && MetaFor(base, r'[i]);
      var k :| 0 <= k < |base| && Covers(base[k].basic, r[i].basic) && base[k].meta == r[i].meta;
      var k' :| 0 <= k' < |base| && Covers(base[k'].basic, r'[i].basic) && base[k'].meta == r'[i].meta;
      CoveringUnique(base, query[i], k, k');
    }
  }

  // Section k, which covered the query before, is the last one before s that could cover this one.
  lemma WalkSkips(base: seq<SectionDesc>, p: BasicDesc, q: BasicDesc, s: nat, k: nat)
    requires Registered(base) && s < |base| && k < |base| && Covers(base[s].basic, p) && !Less(q, p)
    requires Covers(base[k].basic, q)
    ensures k >= s || Covers(base[s].basic, q)
  {
    CoverTestsAgree(base[s].basic, p);
    CoverTestsAgree(base[k].basic, q);
    CoverTestsAgree(base[s].basic, q);
    if k < s {
      assert !Less(base[s].basic, base[k].basic);
      if base[k].basic.devId == base[s].basic.devId { SectionsInOrder(base, k, s); }
    }
  }

  // The walk to the section that covers q, from section s, which covered the query p before it.
  method WalkForward(base: seq<SectionDesc>, p: BasicDesc, q: BasicDesc, s: nat) returns (r: nat)
    requires s < |base| && Covers(base[s].basic, p) && !Less(q, p)
    ensures s <= r <= |base|
    ensures r < |base| ==> Covers(base[r].basic, q)
    ensures Registered(base) && r == |base| ==> !Covered(base, q)
  {
    r := s;
    var end := RangeEnd(base[r].basic);
    CoversFollowingAgrees(base[s].basic, p, q);
    if !CoversFollowingWithEnd(base[r].basic, end, q) {
      r := r + 1;
      while r < |base| && !CoversWithEnd(base[r].basic, RangeEnd(base[r].basic), q)
        invariant s < r <= |base|
        invariant forall k :: s <= k < r ==> !Covers(base[k].basic, q)
      {
        CoverTestsAgree(base[r].basic, q);
        r := r + 1;
      }
      if r < |base| { CoverTestsAgree(base[r].basic, q); }
    }
    if Registered(base) && r == |base| && Covered(base, q) {
      var k :| 0 <= k < |base| && Covers(base[k].basic, q);
      WalkSkips(base, p, q, s, k);
      assert false;
    }
  }

  // The section for a query that breaks the order.
  method Search(base: seq<SectionDesc>, q: BasicDesc) returns (r: int)
    ensures -1 <= r < |base| && (r >= 0 ==> Covers(base[r].basic, q))
    ensures Registered(base) ==> (r >= 0 <==> Covered(base, q))
  {
    r := GetCoveringIndex(base, q);
    if Registered(base) && Covered(base, q) {
      var k :| 0 <= k < |base| && Covers(base[k].basic, q);
      GetCoveringIndexComplete(base, q, k);
    }
  }

  /** Binary search for the first element and on disorder, a forward walk otherwise. */
  method Walk(base: seq<SectionDesc>, query: seq<BasicDesc>) returns (ok: bool, resp: seq<MetaDesc>)
    requires query != []
    ensures ok ==> IsAnswer(base, query, resp)
    ensures !ok ==> resp == []
    ensures Registered(base) ==> (ok <==> AllCovered(base, query))
  {
    resp := [];
    var found := Search(base, query[0]);
    if found < 0 { return false, []; }
    var sIndex: nat := found;
    resp := [MetaDesc(query[0], base[sIndex].meta)];
    MetaForAt(base, resp[0], sIndex);
    var i := 1;
    while i < |query|
      invariant 1 <= i <= |query|
      invariant sIndex < |base| && Covers(base[sIndex].basic, query[i - 1])
      invariant IsAnswer(base, query[..i], resp)
      invariant AllCovered(base, query[..i])
    {
      if Less(query[i], query[i - 1]) {
        found := Search(base, query[i]);
        if found < 0 { return false, []; }
        sIndex := found;
      } else {
        sIndex := WalkForward(base, query[i - 1], query[i], sIndex);
        if sIndex == |base| { return false, []; }
      }
      var d := MetaDesc(query[i], base[sIndex].meta);
      MetaForAt(base, d, sIndex);
      AnswerAppend(base, query, resp, i, d);
      resp := resp + [d];
      i := i + 1;
    }
    assert query[..i] == query;
    ok := true;
  }

  lemma AnswerAppend(base: seq<SectionDesc>, query: seq<BasicDesc>, resp: seq<MetaDesc>, i: nat, d: MetaDesc)
    requires i < |query| && IsAnswer(base, query[..i], resp) && d.basic == query[i] && MetaFor(base, d)
    requires AllCovered(base, query[..i]) && Covered(base, query[i])
    ensures IsAnswer(base, query[..i + 1], resp + [d]) && AllCovered(base, query[..i + 1])
  {
  }

  // The next section for the compressing walk: it keeps the current one as long as it covers.
  method NextSection(base: seq<SectionDesc>, p: BasicDesc, q: BasicDesc, s: nat) returns (r: int)
    requires s < |base| && Covers(base[s].basic, p)
    ensures -1 <= r < |base| && (r >= 0 ==> Covers(base[r].basic, q))
    ensures Registered(base) && r < 0 ==> !Covered(base, q)
  {
    CoverTestsAgree(base[s].basic, q);
    if CoversWithEnd(base[s].basic, RangeEnd(base[s].basic), q) { return s; }
    if Less(q, p) {
      r := Search(base, q);
    } else {
      var k: nat := s;
      while k < |base| && !CoversWithEnd(base[k].basic, RangeEnd(base[k].basic), q)
        invariant s <= k <= |base|
        invariant forall j :: s <= j < k ==> !Covers(base[j].basic, q)
      {
        CoverTestsAgree(base[k].basic, q);
        k := k + 1;
      }
      if k < |base| {
        CoverTestsAgree(base[k].basic, q);
        return k;
      }
      r := -1;
      if Registered(base) && Covered(base, q) {
        var j :| 0 <= j < |base| && Covers(base[j].basic, q);
        WalkSkips(base, p, q, s, j);
        assert false;
      }
    }
  }

  // ---- Compression ----

  // Whether the element extends the current run, and the run after it.
  function Extend(current: StrideRun, prevAddr: u64, q: BasicDesc, meta: Meta): (bool, StrideRun)
    requires current.count + 1 < TWO_64
  {
    if q.len != current.len || q.devId != current.devId || meta != current.meta then (false, current)
    else if current.count == 1 then
      if q.addr > prevAddr then (true, current.(stride := q.addr - prevAddr, count := 2))
      else (false, current)
    else if Sub64(q.addr, prevAddr) == current.stride then (true, current.(count := current.count + 1))
    else (false, current)
  }

  // The state of the current run: where its last block is, and that a dense run has not wrapped.
  ghost predicate RunState(current: StrideRun, prevAddr: u64) {
    && current.count > 0
    && prevAddr == Block(current, current.count - 1).basic.addr
    && prevAddr + current.len < TWO_64
    && DenseFits(current)
  }

  lemma RunStart(q: BasicDesc, meta: Meta, i: u64)
    requires q.addr + q.len < TWO_64
    ensures var run := StrideRun(q.addr, q.len, q.devId, meta, q.len, 1, i);
            RunState(run, q.addr) && Blocks(run) == [MetaDesc(q, meta)]
  {
    var run := StrideRun(q.addr, q.len, q.devId, meta, q.len, 1, i);
    assert Block(run, 0) == MetaDesc(q, meta);
  }

  // The block after the last one, in 64-bit arithmetic.
  lemma NextBlockAddr(run: StrideRun, k: nat)
    ensures Block(run, k + 1).basic.addr == Add64(Block(run, k).basic.addr, run.stride)
  {
    assert (k + 1) * run.stride == k * run.stride + run.stride;
    AddMod(run.addr + k * run.stride, run.stride);
  }

  lemma DenseEnd(run: StrideRun, prevAddr: u64)
    requires RunState(run, prevAddr) && run.stride == run.len
    ensures run.addr + run.count * run.len == prevAddr + run.len
  {
    assert run.count * run.len == (run.count - 1) * run.len + run.len;
  }

  /** Extending a run appends exactly the new element to the blocks it stands for. */
  lemma ExtendAppends(current: StrideRun, prevAddr: u64, q: BasicDesc, meta: Meta)
    requires current.count + 1 < TWO_64 && RunState(current, prevAddr) && q.addr + q.len < TWO_64
    requires Extend(current, prevAddr, q, meta).0
    ensures var next := Extend(current, prevAddr, q, meta).1;
            && Blocks(next) == Blocks(current) + [MetaDesc(q, meta)]
            && RunState(next, q.addr)
            && next.startIdx == current.startIdx && next.count == current.count + 1
  {
    var n := current.count;
    var next := Extend(current, prevAddr, q, meta).1;
    if n == 1 {
      FirstBlock(current);
      FirstBlock(next);
    } else {
      assert forall k :: 0 <= k < n ==> Block(next, k) == Block(current, k);
    }
    NextBlockAddr(next, n - 1);
    assert Block(next, n) == MetaDesc(q, meta);
    if next.stride == next.len {
      assert q.addr == prevAddr + q.len;
      if n == 1 { DenseTwo(next, prevAddr, q.addr); } else { DenseEnd(current, prevAddr); DenseMore(next, n); }
    }
  }

  lemma FirstBlock(run: StrideRun)
    ensures Block(run, 0).basic.addr == run.addr
  {
    assert 0 * run.stride == 0;
  }

  lemma DenseTwo(run: StrideRun, prevAddr: u64, addr: u64)
    requires run.count == 2 && run.stride == run.len && run.addr == prevAddr && addr == prevAddr + run.len
    requires addr + run.len < TWO_64
    ensures DenseFits(run)
  {
  }

  lemma DenseMore(run: StrideRun, n: nat)
    requires run.count == n + 1 && run.stride == run.len && run.addr + n * run.len + run.len < TWO_64
    ensures DenseFits(run)
  {
    assert (n + 1) * run.len == n * run.len + run.len;
  }

  lemma NumberedAppend(runs: seq<StrideRun>, run: StrideRun)
    requires Numbered(runs) && run.count > 0 && run.startIdx == FlatSize(runs) && run.startIdx + run.count < TWO_64
    ensures Numbered(runs + [run]) && FlatSize(runs + [run]) == run.startIdx + run.count
  {
  }

  lemma ExpandAppend(runs: seq<StrideRun>, run: StrideRun)
    ensures Expand(runs + [run]) == Expand(runs) + Blocks(run)
  {
    assert (runs + [run])[..|runs|] == runs;
  }

  // A block that a run could have taken in: of the same kind, and one stride behind its last block; a run of
  // one block has no stride yet and takes any block above it.
  ghost predicate Takes(run: StrideRun, d: MetaDesc) {
    && run.count > 0 && d.meta == run.meta && d.basic.len == run.len && d.basic.devId == run.devId
    && if run.count == 1 then d.basic.addr > run.addr
       else d.basic.addr == Block(run, run.count).basic.addr
  }

  // No run could have taken in the first block of the next one, and a run of one block is dense.
  ghost predicate Tight(runs: seq<StrideRun>) {
    && (forall k :: 0 <= k < |runs| ==> runs[k].count > 0 && (runs[k].count == 1 ==> runs[k].stride == runs[k].len))
    && forall k :: 0 <= k < |runs| - 1 ==> !Takes(runs[k], Block(runs[k + 1], 0))
  }

  lemma ExtendTakes(current: StrideRun, prevAddr: u64, q: BasicDesc, meta: Meta)
    requires current.count + 1 < TWO_64 && RunState(current, prevAddr)
    ensures Extend(current, prevAddr, q, meta).0 <==> Takes(current, MetaDesc(q, meta))
  {
    if current.count == 1 {
      FirstBlock(current);
    } else {
      NextBlockAddr(current, current.count - 1);
    }
  }

  // The last run grows, or is followed by one that it could not take in.
  lemma TightStep(resp: seq<StrideRun>, current: StrideRun, prevAddr: u64, q: BasicDesc, meta: Meta)
    requires Tight(resp + [current]) && current.count + 1 < TWO_64 && RunState(current, prevAddr)
    ensures var (grows, next) := Extend(current, prevAddr, q, meta);
            if grows then Tight(resp + [next])
            else forall i: u64 :: Tight(resp + [current] + [StrideRun(q.addr, q.len, q.devId, meta, q.len, 1, i)])
  {
    hide Takes;
    ExtendTakes(current, prevAddr, q, meta);
    var (grows, next) := Extend(current, prevAddr, q, meta);
    var runs := resp + [current];
    if grows {
      FirstBlock(current);
      FirstBlock(next);
      assert Block(next, 0) == Block(current, 0);
      var grown := resp + [next];
      forall k | 0 <= k < |grown| - 1 ensures !Takes(grown[k], Block(grown[k + 1], 0)) {
        assert runs[k] == grown[k] && !Takes(runs[k], Block(runs[k + 1], 0));
      }
      assert forall k :: 0 <= k < |resp| ==> runs[k] == grown[k];
    } else {
      forall i: u64 ensures Tight(runs + [StrideRun(q.addr, q.len, q.devId, meta, q.len, 1, i)]) {
        var run := StrideRun(q.addr, q.len, q.devId, meta, q.len, 1, i);
        FirstBlock(run);
        assert Block(run, 0) == MetaDesc(q, meta);
        var more := runs + [run];
        forall k | 0 <= k < |more| - 1 ensures !Takes(more[k], Block(more[k + 1], 0)) {
          assert k < |resp| ==> !Takes(runs[k], Block(runs[k + 1], 0));
        }
      }
    }
  }

  // The runs closed so far and the current one stand for the elements seen so far.
  ghost predicate Compressed(resp: seq<StrideRun>, current: StrideRun, prevAddr: u64, flat: seq<MetaDesc>) {
    && WellFormed(resp)
    && current.startIdx == FlatSize(resp) && current.startIdx + current.count == |flat|
    && RunState(current, prevAddr) && Tight(resp + [current])
    && Expand(resp) + Blocks(current) == flat
  }

  // One element: it extends the current run or closes it and starts another.
  method CompressNext(resp: seq<StrideRun>, current: StrideRun, prevAddr: u64, q: BasicDesc, meta: Meta,
                      ghost flat: seq<MetaDesc>)
    returns (resp': seq<StrideRun>, current': StrideRun)
    requires Compressed(resp, current, prevAddr, flat) && q.addr + q.len < TWO_64 && |flat| + 1 < TWO_64
    ensures Compressed(resp', current', q.addr, flat + [MetaDesc(q, meta)])
  {
    hide Tight;
    var (grows, next) := Extend(current, prevAddr, q, meta);
    TightStep(resp, current, prevAddr, q, meta);
    if grows {
      ExtendAppends(current, prevAddr, q, meta);
      assert Expand(resp) + (Blocks(current) + [MetaDesc(q, meta)]) == flat + [MetaDesc(q, meta)];
      return resp, next;
    }
    resp' := resp + [current];
    NumberedAppend(resp, current);
    ExpandAppend(resp, current);
    var i := current.startIdx + current.count;
    current' := StrideRun(q.addr, q.len, q.devId, meta, q.len, 1, i);
    RunStart(q, meta, i);
  }

  lemma CoveredEnds(c: BasicDesc, q: BasicDesc)
    requires Covers(c, q)
    ensures q.addr + q.len < TWO_64
  {
  }

  /**
   Compression is lossless: the runs stand for an answer to the query, number its elements from 0
   to n, and their dense runs do not wrap. No run could have taken in the next one.
   By `AnswerUnique` that answer is the one `Walk` gives.
   */
  method WalkCompressed(base: seq<SectionDesc>, query: seq<BasicDesc>) returns (ok: bool, runs: seq<StrideRun>)
    requires query != [] && |query| < TWO_31
    ensures ok ==> runs != [] && WellFormed(runs) && FlatSize(runs) == |query| && IsAnswer(base, query, Expand(runs))
    ensures ok ==> Tight(runs)
    ensures !ok ==> runs == []
    ensures Registered(base) ==> (ok <==> AllCovered(base, query))
  {
    hide Block, Blocks, Expand, Registered, Covers, RunState, MetaFor, Compressed, Tight, WellFormed, FlatSize,
      IsAnswer;
    var found := Search(base, query[0]);
    if found < 0 { return false, []; }
    var sIndex: nat := found;
    var meta := base[sIndex].meta;
    var current := StrideRun(query[0].addr, query[0].len, query[0].devId, meta, query[0].len, 1, 0);
    ghost var flat := [MetaDesc(query[0], meta)];
    CoveredEnds(base[sIndex].basic, query[0]);
    CompressFirst(query[0], meta);
    MetaForAt(base, flat[0], sIndex);
    AnswerFirst(base, query, flat[0]);
    runs := [];
    var i := 1;
    while i < |query|
      invariant 1 <= i <= |query|
      invariant sIndex < |base| && Covers(base[sIndex].basic, query[i - 1])
      invariant IsAnswer(base, query[..i], flat) && AllCovered(base, query[..i])
      invariant Compressed(runs, current, query[i - 1].addr, flat)
    {
      found := NextSection(base, query[i - 1], query[i], sIndex);
      if found < 0 { return false, []; }
      sIndex := found;
      meta := base[sIndex].meta;
      CoveredEnds(base[sIndex].basic, query[i]);
      ghost var d := MetaDesc(query[i], meta);
      MetaForAt(base, d, sIndex);
      AnswerAppend(base, query, flat, i, d);
      AnswerSize(base, query[..i], flat);
      runs, current := CompressNext(runs, current, query[i - 1].addr, query[i], meta, flat);
      flat := flat + [d];
      i := i + 1;
    }
    assert query[..i] == query;
    AnswerSize(base, query, flat);
    CloseRun(runs, current, query[|query| - 1].addr, flat);
    runs := runs + [current];
    ok := true;
  }

  lemma AnswerSize(base: seq<SectionDesc>, query: seq<BasicDesc>, resp: seq<MetaDesc>)
    requires IsAnswer(base, query, resp)
    ensures |resp| == |query|
  {
  }

  lemma AnswerFirst(base: seq<SectionDesc>, query: seq<BasicDesc>, d: MetaDesc)
    requires query != [] && d.basic == query[0] && MetaFor(base, d) && Covered(base, query[0])
    ensures IsAnswer(base, query[..1], [d]) && AllCovered(base, query[..1])
  {
  }

  lemma CompressFirst(q: BasicDesc, meta: Meta)
    requires q.addr + q.len < TWO_64
    ensures Compressed([], StrideRun(q.addr, q.len, q.devId, meta, q.len, 1, 0), q.addr, [MetaDesc(q, meta)])
  {
    RunStart(q, meta, 0);
    assert Expand([]) + [MetaDesc(q, meta)] == [MetaDesc(q, meta)];
  }

  lemma CloseRun(resp: seq<StrideRun>, current: StrideRun, prevAddr: u64, flat: seq<MetaDesc>)
    requires Compressed(resp, current, prevAddr, flat) && |flat| < TWO_64
    ensures WellFormed(resp + [current]) && FlatSize(resp + [current]) == |flat| && Expand(resp + [current]) == flat
    ensures Tight(resp + [current])
  {
    NumberedAppend(resp, current);
    ExpandAppend(resp, current);
  }
}
