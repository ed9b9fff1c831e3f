/** The `populate` overload for lists that are strided already: one lookup per run. */
module PreStrided {
  import opened MachineInt
  import opened Descriptors
  import opened StrideRuns
  import opened Coverage
  import opened Populate

  datatype StrideDesc = StrideDesc(addr: u64, len: u64, devId: u64, stride: u64, count: u64)

  // Block k of a run as a plain descriptor.
  function BlockOf(run: StrideDesc, k: nat): BasicDesc {
    BasicDesc((run.addr + k * run.stride) % TWO_64, run.len, run.devId)
  }

  function BlocksOf(run: StrideDesc): (bs: seq<BasicDesc>)
    ensures |bs| == run.count
    ensures forall k :: 0 <= k < run.count ==> bs[k] == BlockOf(run, k)
  {
    seq(run.count, k requires 0 <= k => BlockOf(run, k))
  }

  // The plain list a strided list stands for.
  function Flatten(query: seq<StrideDesc>): seq<BasicDesc> {
    if query == [] then [] else Flatten(query[..|query| - 1]) + BlocksOf(query[|query| - 1])
  }

  // The guards of one run whose first block has flat index `start`.
  predicate GuardOk(run: StrideDesc, start: nat) {
    && run.count != 0 && run.len != 0 && run.stride >= run.len
    && run.len <= MAX_64 - run.addr
    && run.count - 1 <= (MAX_64 - run.addr - run.len) / run.stride
    && run.count <= MAX_64 - start
  }

  // The end of the last block.
  function SpanEnd(run: StrideDesc): int {
    run.addr + (run.count - 1) * run.stride + run.len
  }

  /** The guards rule out overflow: of the span, of every block address and of the flat index. */
  lemma GuardsBound(run: StrideDesc, start: nat, k: nat)
    requires GuardOk(run, start) && k < run.count
    ensures 0 <= k * run.stride <= (run.count - 1) * run.stride
    ensures SpanEnd(run) <= MAX_64
    ensures BlockOf(run, k).addr == run.addr + k * run.stride
    ensures start + run.count <= MAX_64
  {
    var room := MAX_64 - run.addr - run.len;
    MulMono(run.count - 1, room / run.stride, run.stride);
    assert room / run.stride * run.stride <= room;
    MulMono(k, run.count - 1, run.stride);
    MulMono(0, k, run.stride);
  }

  /**
   The guards rule out nothing else: a run passes exactly if it has blocks, they have bytes and do not
   overlap, the last of them ends inside the address space, and its indices fit.
   */
  lemma GuardsExact(run: StrideDesc, start: nat)
    ensures GuardOk(run, start) <==>
            && run.count > 0 && run.len > 0 && run.len <= run.stride
            && run.addr + (run.count - 1) * run.stride + run.len <= MAX_64 && start + run.count <= MAX_64
  {
    if GuardOk(run, start) {
      GuardsBound(run, start, 0);
    } else if run.count > 0 && run.len > 0 && run.len <= run.stride && SpanEnd(run) <= MAX_64 {
      MulMono(0, run.count - 1, run.stride);
      FitsQuotient(run.count - 1, run.stride, MAX_64 - run.addr - run.len);
    }
  }

  lemma FitsQuotient(n: nat, d: nat, room: nat)
    requires d > 0 && n * d <= room
    ensures n <= room / d
  {
    assert (room / d + 1) * d == room / d * d + d;
    assert (room / d + 1) * d > room;
    if n > room / d { MulMono(room / d + 1, n, d); }
  }

  function Span(run: StrideDesc, start: nat): BasicDesc
    requires GuardOk(run, start)
  {
    GuardsBound(run, start, 0);
    BasicDesc(run.addr, (run.count - 1) * run.stride + run.len, run.devId)
  }

  function FlatCount(query: seq<StrideDesc>): nat {
    if query == [] then 0 else FlatCount(query[..|query| - 1]) + query[|query| - 1].count
  }

  // Run i passes its guards and its whole span, gaps included, lies in one section.
  ghost predicate RunOk(base: seq<SectionDesc>, query: seq<StrideDesc>, i: nat)
    requires i < |query|
  {
    var start := FlatCount(query[..i]);
    GuardOk(query[i], start) && Covered(base, Span(query[i], start))
  }

  ghost predicate AllOk(base: seq<SectionDesc>, query: seq<StrideDesc>) {
    forall i :: 0 <= i < |query| ==> RunOk(base, query, i)
  }

  ghost predicate FirstFailure(base: seq<SectionDesc>, query: seq<StrideDesc>, i: nat, st: Status) {
    && i < |query| && !RunOk(base, query, i)
    && (forall j :: 0 <= j < i ==> RunOk(base, query, j))
    && st == if GuardOk(query[i], FlatCount(query[..i])) then Unknown else InvalidParam
  }

  /** A section that covers the span covers every block of the run. */
  lemma SpanCoversBlocks(c: BasicDesc, run: StrideDesc, start: nat, k: nat)
    requires GuardOk(run, start) && Covers(c, Span(run, start)) && k < run.count
    ensures Covers(c, BlockOf(run, k))
  {
    GuardsBound(run, start, k);
    CoverTestsAgree(c, Span(run, start));
    CoverTestsAgree(c, BlockOf(run, k));
  }

  lemma RunAnswer(base: seq<SectionDesc>, run: StrideDesc, start: nat, j: nat, md: StrideRun)
    requires GuardOk(run, start) && j < |base| && Covers(base[j].basic, Span(run, start))
    requires md == StrideRun(run.addr, run.len, run.devId, base[j].meta, run.stride, run.count, md.startIdx)
    ensures IsAnswer(base, BlocksOf(run), Blocks(md)) && DenseFits(md)
  {
    forall k | 0 <= k < run.count ensures Blocks(md)[k].basic == BlockOf(run, k) && MetaFor(base, Blocks(md)[k]) {
      SpanCoversBlocks(base[j].basic, run, start, k);
      MetaForAt(base, Block(md, k), j);
    }
    GuardsBound(run, start, 0);
    assert run.count * run.len == (run.count - 1) * run.len + run.len;
  }

  lemma AnswerConcat(base: seq<SectionDesc>, q: seq<BasicDesc>, r: seq<MetaDesc>, q': seq<BasicDesc>, r': seq<MetaDesc>)
    requires IsAnswer(base, q, r) && IsAnswer(base, q', r')
    ensures IsAnswer(base, q + q', r + r')
  {
  }

  /**
   Success means that every run passes its guards and is covered as a whole, and the flattened list is
   answered block for block, under its own flat indices. Over disjoint registrations a failure is
   always the fault of some run, and its status says which check that run failed.
   */
  method ResolveRuns(base: seq<SectionDesc>, query: seq<StrideDesc>) returns (st: Status, resp: seq<StrideRun>)
    ensures st == Success ==> AllOk(base, query)
    ensures st == Success ==> WellFormed(resp) && |resp| == |query| && FlatSize(resp) == |Flatten(query)|
    ensures st == Success ==> IsAnswer(base, Flatten(query), Expand(resp))
    ensures st in {Success, InvalidParam, Unknown}
    ensures st != Success ==> resp == [] && (Registered(base) ==> exists i :: FirstFailure(base, query, i, st))
  {
    hide Resolved, RunOk, Registered, Covers, Covered, Flatten, FlatCount, Expand, WellFormed, FlatSize, IsAnswer;
    resp := [];
    AnswerNothing(base, query);
    var startIdx: u64 := 0;
    var i := 0;
    while i < |query|
      invariant i <= |query| && Resolved(base, query, i, resp, startIdx)
      invariant forall j :: 0 <= j < i ==> RunOk(base, query, j)
    {
      var run := query[i];
      ResolvedStart(base, query, i, resp, startIdx);
      if !GuardOk(run, startIdx) {
        BadRun(base, query, i);
        return InvalidParam, [];
      }
      var sIndex := Search(base, Span(run, startIdx));
      if sIndex < 0 {
        if Registered(base) { UncoveredRun(base, query, i); }
        return Unknown, [];
      }
      GuardsBound(run, startIdx, 0);
      ResolvedNext(base, query, i, resp, startIdx, sIndex);
      resp := resp + [StrideRun(run.addr, run.len, run.devId, base[sIndex].meta, run.stride, run.count, startIdx)];
      startIdx := startIdx + run.count;
      i := i + 1;
    }
    ResolvedAll(base, query, resp, startIdx);
    st := Success;
  }

  // The runs answered so far.
  ghost predicate Resolved(base: seq<SectionDesc>, query: seq<StrideDesc>, i: nat, resp: seq<StrideRun>, start: nat)
    requires i <= |query|
  {
    && |resp| == i && WellFormed(resp)
    && start == FlatCount(query[..i]) == |Flatten(query[..i])| == FlatSize(resp)
    && IsAnswer(base, Flatten(query[..i]), Expand(resp))
  }

  lemma ResolvedStart(base: seq<SectionDesc>, query: seq<StrideDesc>, i: nat, resp: seq<StrideRun>, start: nat)
    requires i <= |query| && Resolved(base, query, i, resp, start)
    ensures start == FlatCount(query[..i])
  {
  }

  lemma BadRun(base: seq<SectionDesc>, query: seq<StrideDesc>, i: nat)
    requires i < |query| && !GuardOk(query[i], FlatCount(query[..i]))
    requires forall j :: 0 <= j < i ==> RunOk(base, query, j)
    ensures !RunOk(base, query, i) && FirstFailure(base, query, i, InvalidParam)
  {
  }

  lemma UncoveredRun(base: seq<SectionDesc>, query: seq<StrideDesc>, i: nat)
    requires i < |query| && GuardOk(query[i], FlatCount(query[..i]))
             && !Covered(base, Span(query[i], FlatCount(query[..i])))
    requires forall j :: 0 <= j < i ==> RunOk(base, query, j)
    ensures !RunOk(base, query, i) && FirstFailure(base, query, i, Unknown)
  {
  }

  lemma ResolvedNext(base: seq<SectionDesc>, query: seq<StrideDesc>, i: nat, resp: seq<StrideRun>, start: u64, j: nat)
    requires i < |query| && Resolved(base, query, i, resp, start) && GuardOk(query[i], start)
    requires j < |base| && Covers(base[j].basic, Span(query[i], start))
    ensures RunOk(base, query, i)
    ensures var run := query[i];
            Resolved(base, query, i + 1,
                     resp + [StrideRun(run.addr, run.len, run.devId, base[j].meta, run.stride, run.count, start)],
                     start + run.count)
  {
    hide Covers, MetaFor, IsAnswer, Block, BlockOf, DenseFits;
    var run := query[i];
    assert query[..i + 1][..i] == query[..i];
    var md := StrideRun(run.addr, run.len, run.devId, base[j].meta, run.stride, run.count, start);
    GuardsBound(run, start, 0);
    RunAnswer(base, run, start, j, md);
    AnswerConcat(base, Flatten(query[..i]), Expand(resp), BlocksOf(run), Blocks(md));
    NumberedAppend(resp, md);
    ExpandAppend(resp, md);
  }

  lemma ResolvedAll(base: seq<SectionDesc>, query: seq<StrideDesc>, resp: seq<StrideRun>, start: nat)
    requires Resolved(base, query, |query|, resp, start)
    ensures WellFormed(resp) && |resp| == |query| && FlatSize(resp) == |Flatten(query)|
    ensures IsAnswer(base, Flatten(query), Expand(resp))
  {
    assert query[..|query|] == query;
  }

  lemma AnswerNothing(base: seq<SectionDesc>, query: seq<StrideDesc>)
    ensures Resolved(base, query, 0, [], 0)
  {
  }

  /**
   The strided path refines the expanded one: whenever it succeeds, the expanded list is covered, so
   the plain lookup succeeds on it too, and its one answer is the expansion of the strided answer.
   */
  lemma StridedRefinesExpanded(base: seq<SectionDesc>, query: seq<StrideDesc>, runs: seq<StrideRun>,
                               plain: seq<MetaDesc>)
    requires Registered(base) && AllOk(base, query)
    requires IsAnswer(base, Flatten(query), Expand(runs))
    ensures AllCovered(base, Flatten(query))
    ensures IsAnswer(base, Flatten(query), plain) ==> plain == Expand(runs)
  {
    hide Registered, Covers, Expand, Flatten;
    var flat, resp := Flatten(query), Expand(runs);
    assert query[..|query|] == query;
    forall j | 0 <= j < |query| ensures query[j].len != 0 {
      assert RunOk(base, query, j);
    }
    forall i | 0 <= i < |flat| ensures Covered(base, flat[i]) && flat[i].len > 0 {
      assert resp[i].basic == flat[i] && MetaFor(base, resp[i]);
      FlattenPositive(query, i, |query|);
    }
    if IsAnswer(base, flat, plain) {
      AnswerUnique(base, flat, plain, resp);
    }
  }

  lemma {:induction false} FlattenPositive(query: seq<StrideDesc>, i: nat, n: nat)
    requires n <= |query| && i < |Flatten(query[..n])|
    requires forall j :: 0 <= j < n ==> query[j].len != 0
    ensures Flatten(query[..n])[i].len > 0
    decreases n
  {
    assert query[..n][..n - 1] == query[..n - 1];
    if i < |Flatten(query[..n - 1])| {
      FlattenPositive(query, i, n - 1);
    } else {
      var k := i - |Flatten(query[..n - 1])|;
      assert Flatten(query[..n])[i] == BlocksOf(query[n - 1])[k] == BlockOf(query[n - 1], k);
    }
  }

  lemma FlatCountSnoc(query: seq<StrideDesc>, run: StrideDesc)
    ensures FlatCount(query + [run]) == FlatCount(query) + run.count
  {
    assert (query + [run])[..|query|] == query;
  }

  // A run of single bytes from address 0 passes the guards, and an unbounded section covers it.
  lemma ByteRunOk(count: u64, start: nat)
    requires 0 < count && start + count <= MAX_64
    ensures var run := StrideDesc(0, 1, 0, 1, count);
            GuardOk(run, start) && Covers(BasicDesc(0, MAX_64, 0), Span(run, start))
  {
    var run := StrideDesc(0, 1, 0, 1, count);
    assert (run.count - 1) * run.stride == count - 1;
    GuardsExact(run, start);
  }

  /**
   Two runs that pass the guards in an unbounded section, with 2^64 - 1 blocks together: the run size of
   the list they give is zero, and looking up any of its blocks divides by it.
   */
  lemma ZeroRunSizeExample()
    ensures var query := [StrideDesc(0, 1, 0, 1, TWO_64 / 2), StrideDesc(0, 1, 0, 1, TWO_64 / 2 - 1)];
            AllOk([SectionDesc(BasicDesc(0, MAX_64, 0), 0, [])], query) && RunSize(FlatCount(query), |query|) == 0
  {
    hide FlatCount, GuardOk, Covers, RunSize;
    var base := [SectionDesc(BasicDesc(0, MAX_64, 0), 0, [])];
    var a, b := StrideDesc(0, 1, 0, 1, TWO_64 / 2), StrideDesc(0, 1, 0, 1, TWO_64 / 2 - 1);
    var query := [a, b];
    NoCount();
    FlatCountSnoc([], a);
    FlatCountSnoc([a], b);
    assert query[..0] == [] && query[..1] == [] + [a] == [a] && query == [a] + [b];
    assert FlatCount(query[..1]) == a.count && FlatCount(query) == a.count + b.count == MAX_64;
    ByteRunOk(a.count, 0);
    ByteRunOk(b.count, a.count);
    assert Covers(base[0].basic, Span(a, 0)) && Covers(base[0].basic, Span(b, a.count));
    RunSizeIff(MAX_64, 2);
  }

  lemma NoCount()
    ensures FlatCount([]) == 0
  {
  }
}
