/**
 What the two ways of building a request have in common: the same byte pairs for the same lists, for
 descriptor lists and for strided ones, and descriptors that stay inside registered sections.
 */
module XferEquivalence {
  import opened MachineInt
  import opened Descriptors
  import opened StrideRuns
  import opened Coverage
  import opened Populate
  import opened IndexMerging
  import opened MergeMeaning
  import opened XferPipeline
  import opened BackendOrder
  import PreStrided
  import CB = ContinuationBitmap

  // ---- Prepare and make is create ----

  // The list of all indices.
  function AllIndices(n: nat): (ixs: seq<i32>)
    requires n < TWO_31
    ensures |ixs| == n && forall i :: 0 <= i < n ==> ixs[i] == i
  {
    seq(n, i requires 0 <= i < n => i)
  }

  lemma SelectAll(blocks: seq<MetaDesc>)
    requires |blocks| < TWO_31
    ensures OneByOne(blocks, AllIndices(|blocks|)) == blocks
  {
  }

  // Selecting every pair is valid exactly when the lengths agree.
  lemma AllIndicesValid(lb: seq<SectionDesc>, rb: seq<SectionDesc>, local: seq<BasicDesc>, remote: seq<BasicDesc>,
                        L: seq<MetaDesc>, R: seq<MetaDesc>)
    requires IsAnswer(lb, local, L) && IsAnswer(rb, remote, R) && |local| == |remote| < TWO_31
    ensures AllValid(L, R, AllIndices(|local|), AllIndices(|local|)) <==> Matching(local, remote)
  {
    var ixs := AllIndices(|local|);
    if AllValid(L, R, ixs, ixs) {
      forall i | 0 <= i < |local| ensures local[i].len == remote[i].len {
        assert PairValid(L, R, ixs[i], ixs[i]);
      }
    }
  }

  lemma {:induction false} RunsFit(runs: seq<StrideRun>)
    requires Numbered(runs)
    ensures |runs| <= FlatSize(runs)
  {
    if runs != [] {
      NumberedPrefix(runs);
      RunsFit(runs[..|runs| - 1]);
    }
  }

  // Prepared lists of fewer than 2^31 descriptors can always be looked up and merge safely.
  lemma SmallListsUsable(lr: seq<StrideRun>, rr: seq<StrideRun>, li: seq<i32>, ri: seq<i32>, skip: bool)
    requires WellFormed(lr) && WellFormed(rr) && lr != [] && rr != [] && |li| == |ri|
    requires FlatSize(lr) < TWO_31 && FlatSize(rr) < TWO_31
    ensures |lr| < TWO_64 && |rr| < TWO_64 && Defined(lr, rr, li, ri) && MergeSafe(lr, rr, skip)
  {
    hide RunSize, MergeSafe;
    RunsFit(lr);
    RunsFit(rr);
    RunSizeIff(FlatSize(lr), |lr|);
    RunSizeIff(FlatSize(rr), |rr|);
    SmallListsAreSafe(lr, rr, skip);
  }

  function Locals(backends: seq<Backend>): (r: seq<Found>)
    ensures |r| == |backends| && forall i :: 0 <= i < |r| ==> r[i] == backends[i].local
  {
    seq(|backends|, i requires 0 <= i < |backends| => backends[i].local)
  }

  function Remotes(backends: seq<Backend>): (r: seq<Found>)
    ensures |r| == |backends| && forall i :: 0 <= i < |r| ==> r[i] == backends[i].remote
  {
    seq(|backends|, i requires 0 <= i < |backends| => backends[i].remote)
  }

  function Notifs(backends: seq<Backend>): (r: seq<bool>)
    ensures |r| == |backends| && forall i :: 0 <= i < |r| ==> r[i] == backends[i].supportsNotif
  {
    seq(|backends|, i requires 0 <= i < |backends| => backends[i].supportsNotif)
  }

  // Merging all indices of two prepared lists moves the bytes of the lists' answers.
  lemma AllMerged(lb: seq<SectionDesc>, rb: seq<SectionDesc>, local: seq<BasicDesc>, remote: seq<BasicDesc>,
                  lr: seq<StrideRun>, rr: seq<StrideRun>, skip: bool)
    requires Prepared(lb, local, lr) && Prepared(rb, remote, rr) && |local| == |remote| < TWO_31
    ensures Numbered(lr) && Numbered(rr)
    ensures var m := Merge(lr, rr, AllIndices(|local|), AllIndices(|remote|), skip, 0);
            && (m.Accepted? <==> Matching(local, remote))
            && (m.Accepted? ==> MovedBytes(m.local, m.remote) == MovedBytes(Expand(lr), Expand(rr))
                                && m.bytes == TotalLen(Expand(lr)))
  {
    hide Expand, WellFormed, MergeSafe, Merge, MovedBytes, TotalLen, AllValid, FlatSize;
    var ixs := AllIndices(|local|);
    WellFormedNumbers(lr);
    WellFormedNumbers(rr);
    SmallListsUsable(lr, rr, ixs, ixs, skip);
    MergePreservesMeaning(lr, rr, ixs, ixs, skip, 0);
    assert ixs[0..] == ixs;
    AllIndicesValid(lb, rb, local, remote, Expand(lr), Expand(rr));
    SelectAll(Expand(lr));
    SelectAll(Expand(rr));
  }

  // Both sides are prepared for exactly the backends that serve them.
  lemma CommonServes(backends: seq<Backend>, local: seq<BasicDesc>, remote: seq<BasicDesc>, lp: seq<Dlist>,
                     rp: seq<Dlist>)
    requires |lp| == |rp| == |backends|
    requires forall i :: 0 <= i < |backends| ==>
               (lp[i].Some? <==> local != [] && AllCovered(Base(backends[i].local), local))
    requires forall i :: 0 <= i < |backends| ==>
               (rp[i].Some? <==> remote != [] && AllCovered(Base(backends[i].remote), remote))
    ensures Common(lp, rp) == FirstServing(backends, local, remote)
  {
    hide AllCovered;
    var c := Common(lp, rp);
    FirstIs(backends, local, remote, c);
  }

  // prepXferDlist on both sides, then makeXferReq with all indices, meeting the backends in its own order.
  method PrepThenMake(backends: seq<Backend>, order: seq<nat>, remoteKnown: bool, lt: MemType, local: seq<BasicDesc>,
                      rt: MemType, remote: seq<BasicDesc>, skip: bool, notif: bool, prep: Prepare)
    returns (chosen: Option<nat>, initiator: seq<MetaDesc>, target: seq<MetaDesc>, totalBytes: u64,
             ghost L: seq<MetaDesc>, ghost R: seq<MetaDesc>)
    requires |local| < TWO_31 && |remote| < TWO_31 && AllRegistered(backends) && IsOrder(order, |backends|)
    ensures chosen == Choice(backends, order, remoteKnown, local, remote, notif)
    ensures chosen.Some? ==>
              && IsAnswer(Base(backends[chosen.value].local), local, L)
              && IsAnswer(Base(backends[chosen.value].remote), remote, R)
              && |initiator| == |target| && MovedBytes(initiator, target) == MovedBytes(L, R)
              && totalBytes == TotalLen(L) % TWO_64
  {
    hide Registered, Expand, WellFormed, Merge, MovedBytes, TotalLen, Serves, Common, IsAnswer, AllCovered, Defined,
      FlatSize;
    chosen, initiator, target, totalBytes, L, R := None, [], [], 0, [], [];
    var met := InOrder(backends, order);
    var st, lp, rp, at;
    st, lp := PrepXferDlist(Locals(backends), true, lt, local);
    st, rp := PrepXferDlist(Remotes(backends), remoteKnown, rt, remote);
    if !remoteKnown { return; }
    lp, rp := InOrder(lp, order), InOrder(rp, order);
    CommonServes(met, local, remote, lp, rp);
    var c := Common(lp, rp);
    var li, ri := AllIndices(|local|), AllIndices(|remote|);
    if c < |lp| {
      L, R := Expand(lp[c].value), Expand(rp[c].value);
      if |local| == |remote| {
        SmallListsUsable(lp[c].value, rp[c].value, li, ri, skip);
        AllMerged(Base(met[c].local), Base(met[c].remote), local, remote, lp[c].value, rp[c].value, skip);
      } else {
        RunsCount(lp[c].value, |local|);
        RunsCount(rp[c].value, |remote|);
      }
    }
    st, at, initiator, target, totalBytes :=
      MakeXferReq(true, lp, li, rp, ri, Notifs(met), skip, notif, false, prep);
    if at.Some? { chosen := Some(order[at.value]); }
  }

  lemma RunsCount(runs: seq<StrideRun>, n: nat)
    requires WellFormed(runs) && FlatSize(runs) == n
    ensures |runs| <= n
  {
    RunsFit(runs);
  }

  /**
   The documented equivalence, as far as it holds: creating a request directly, and preparing both lists
   and selecting all indices, reach the prepXfer of the same backend or of none whenever the order of the
   backends does not matter; and whenever they reach the same one, the descriptors move the same byte
   pairs in the same order, with the same byte total.
   */
  method PreppedEqualsCreated(backends: seq<Backend>, p: seq<nat>, q: seq<nat>, remoteKnown: bool,
                              lt: MemType, local: seq<BasicDesc>, rt: MemType, remote: seq<BasicDesc>,
                              skip: bool, notif: bool, prep: Prepare)
    returns (created: Option<nat>, initiator: seq<MetaDesc>, target: seq<MetaDesc>, bytes: u64,
             made: Option<nat>, initiator': seq<MetaDesc>, target': seq<MetaDesc>, bytes': u64)
    requires |local| < TWO_31 && |remote| < TWO_31 && AllRegistered(backends)
    requires IsOrder(p, |backends|) && IsOrder(q, |backends|)
    requires forall i :: 0 <= i < |local| ==> local[i].len > 0
    requires forall i :: 0 <= i < |remote| ==> remote[i].len > 0
    ensures created == Choice(backends, p, remoteKnown, local, remote, notif)
    ensures made == Choice(backends, q, remoteKnown, local, remote, notif)
    ensures OrderFree(backends, remoteKnown, local, remote, notif) ==> created == made
    ensures created == made && made.Some? ==> |initiator| == |target| && |initiator'| == |target'|
    ensures created == made && made.Some? ==>
              MovedBytes(initiator', target') == MovedBytes(initiator, target) && bytes' == bytes
  {
    hide Registered, MovedBytes, TotalLen, IsAnswer, Serves, OrderFree;
    ghost var L, R;
    var st, at;
    st, at, initiator, target, bytes :=
      CreateXferReq(InOrder(backends, p), remoteKnown, lt, local, rt, remote, notif, prep);
    created := if at.Some? then Some(p[at.value]) else None;
    made, initiator', target', bytes', L, R :=
      PrepThenMake(backends, q, remoteKnown, lt, local, rt, remote, skip, notif, prep);
    if OrderFree(backends, remoteKnown, local, remote, notif) {
      SameChoice(backends, p, q, remoteKnown, local, remote, notif);
    }
    if created == made && made.Some? {
      var lb, rb := Base(backends[made.value].local), Base(backends[made.value].remote);
      AnswerUnique(lb, local, initiator, L);
      AnswerUnique(rb, remote, target, R);
      AnswerSize(lb, local, initiator);
      AnswerSize(rb, remote, target);
    }
  }

  // ---- Strided lists are their flattened lists ----

  // Runs prepared from a strided list and runs prepared from its flattened list stand for the same blocks.
  lemma SameBlocks(base: seq<SectionDesc>, query: seq<PreStrided.StrideDesc>, runs: seq<StrideRun>,
                   flat: seq<StrideRun>)
    requires Registered(base) && PreStrided.AllOk(base, query)
    requires Prepared(base, PreStrided.Flatten(query), runs) && Prepared(base, PreStrided.Flatten(query), flat)
    ensures Expand(runs) == Expand(flat)
  {
    hide Registered, Expand, WellFormed, IsAnswer, PreStrided.AllOk, PreStrided.Flatten;
    PreStrided.StridedRefinesExpanded(base, query, runs, Expand(flat));
  }

  /**
   A request of any indices of strided lists moves the bytes of the same request of the flattened lists,
   and is accepted exactly when that one is.
   */
  lemma StridedMovesSame(lb: seq<SectionDesc>, rb: seq<SectionDesc>,
                         local: seq<PreStrided.StrideDesc>, remote: seq<PreStrided.StrideDesc>,
                         lr: seq<StrideRun>, rr: seq<StrideRun>, lf: seq<StrideRun>, rf: seq<StrideRun>,
                         li: seq<i32>, ri: seq<i32>, skip: bool)
    requires Registered(lb) && Registered(rb) && PreStrided.AllOk(lb, local) && PreStrided.AllOk(rb, remote)
    requires Prepared(lb, PreStrided.Flatten(local), lr) && Prepared(rb, PreStrided.Flatten(remote), rr)
    requires Prepared(lb, PreStrided.Flatten(local), lf) && Prepared(rb, PreStrided.Flatten(remote), rf)
    requires MergeSafe(lr, rr, skip) && MergeSafe(lf, rf, skip) && |li| == |ri|
    ensures Numbered(lr) && Numbered(rr) && Numbered(lf) && Numbered(rf)
    ensures var m, f := Merge(lr, rr, li, ri, skip, 0), Merge(lf, rf, li, ri, skip, 0);
            && (m.Accepted? <==> f.Accepted?)
            && (m.Accepted? ==> MovedBytes(m.local, m.remote) == MovedBytes(f.local, f.remote) && m.bytes == f.bytes)
  {
    hide Registered, Expand, WellFormed, IsAnswer, MergeSafe, Merge, MovedBytes, TotalLen, AllValid, PreStrided.AllOk,
      PreStrided.Flatten, FlatSize;
    SameBlocks(lb, local, lr, lf);
    SameBlocks(rb, remote, rr, rf);
    WellFormedNumbers(lr);
    WellFormedNumbers(rr);
    WellFormedNumbers(lf);
    WellFormedNumbers(rf);
    MergePreservesMeaning(lr, rr, li, ri, skip, 0);
    MergePreservesMeaning(lf, rf, li, ri, skip, 0);
    assert li[0..] == li && ri[0..] == ri;
  }

  // Whatever a strided list is prepared for, its flattened list is prepared for too.
  lemma StridedImpliesFlat(base: seq<SectionDesc>, query: seq<PreStrided.StrideDesc>, runs: seq<StrideRun>)
    requires Registered(base) && PreStrided.AllOk(base, query) && Prepared(base, PreStrided.Flatten(query), runs)
    ensures PreStrided.Flatten(query) != [] && AllCovered(base, PreStrided.Flatten(query))
  {
    hide Registered, Expand, IsAnswer, PreStrided.AllOk, PreStrided.Flatten;
    PreStrided.StridedRefinesExpanded(base, query, runs, Expand(runs));
    RunsCount(runs, FlatSize(runs));
  }

  // A backend whose strided lists are prepared on both sides.
  ghost predicate StridedServes(b: Backend, local: seq<PreStrided.StrideDesc>, remote: seq<PreStrided.StrideDesc>) {
    && b.local.Some? && b.remote.Some? && local != [] && remote != []
    && PreStrided.AllOk(b.local.value, local) && PreStrided.AllOk(b.remote.value, remote)
  }

  /**
   The strided fast path, end to end for one backend: it succeeds in no case in which the flattened lists
   fail, a backend that covers the runs with their gaps takes the same requests of any indices, and a
   request that is made moves the same byte pairs with the same byte total.
   */
  method StridedEqualsFlat(b: Backend, remoteKnown: bool, lt: MemType, local: seq<PreStrided.StrideDesc>, rt: MemType,
                           remote: seq<PreStrided.StrideDesc>, li: seq<i32>, ri: seq<i32>, skip: bool, notif: bool,
                           expired: bool, prep: Prepare)
    returns (strided: Option<nat>, initiator: seq<MetaDesc>, target: seq<MetaDesc>, bytes: u64,
             flat: Option<nat>, initiator': seq<MetaDesc>, target': seq<MetaDesc>, bytes': u64)
    requires |PreStrided.Flatten(local)| < TWO_31 && |PreStrided.Flatten(remote)| < TWO_31
    requires |li| < TWO_31 && |ri| < TWO_31 && Registered(Base(b.local)) && Registered(Base(b.remote))
    ensures strided.Some? ==> flat == strided
    ensures StridedServes(b, local, remote) ==> flat == strided
    ensures strided.Some? ==> |initiator| == |target| && |initiator'| == |target'|
    ensures strided.Some? ==> MovedBytes(initiator, target) == MovedBytes(initiator', target') && bytes == bytes'
  {
    hide Registered, Expand, WellFormed, Merge, MovedBytes, TotalLen, Common, IsAnswer, AllCovered, Defined, FlatSize,
      MergeSafe, PreStrided.AllOk, PreStrided.Flatten;
    var st, lp, rp, lf, rf;
    st, lp := PrepStrided([b.local], true, lt, local);
    st, rp := PrepStrided([b.remote], remoteKnown, rt, remote);
    var fl, fr := PreStrided.Flatten(local), PreStrided.Flatten(remote);
    st, lf := PrepXferDlist([b.local], true, lt, fl);
    st, rf := PrepXferDlist([b.remote], remoteKnown, rt, fr);
    assert [b.local][0] == b.local && [b.remote][0] == b.remote;
    SmallUsable(Base(b.local), Base(b.remote), fl, fr, lp, rp, li, ri, skip);
    SmallUsable(Base(b.local), Base(b.remote), fl, fr, lf, rf, li, ri, skip);
    if lp[0].Some? { StridedImpliesFlat(Base(b.local), local, lp[0].value); }
    if rp[0].Some? { StridedImpliesFlat(Base(b.remote), remote, rp[0].value); }
    CommonOfOne(lp, rp);
    CommonOfOne(lf, rf);
    if lp[0].Some? && rp[0].Some? && lf[0].Some? && rf[0].Some? && |li| == |ri| {
      StridedMovesSame(Base(b.local), Base(b.remote), local, remote, lp[0].value, rp[0].value, lf[0].value, rf[0].value,
                       li, ri, skip);
    }
    st, strided, initiator, target, bytes :=
      MakeXferReq(true, lp, li, rp, ri, [b.supportsNotif], skip, notif, expired, prep);
    st, flat, initiator', target', bytes' :=
      MakeXferReq(true, lf, li, rf, ri, [b.supportsNotif], skip, notif, expired, prep);
  }

  lemma CommonOfOne(lp: seq<Dlist>, rp: seq<Dlist>)
    requires |lp| == |rp| == 1
    ensures Common(lp, rp) == if lp[0].Some? && rp[0].Some? then 0 else 1
  {
  }

  // Prepared lists of fewer than 2^31 blocks for one backend are usable and safe.
  lemma SmallUsable(lb: seq<SectionDesc>, rb: seq<SectionDesc>, local: seq<BasicDesc>, remote: seq<BasicDesc>,
                    lp: seq<Dlist>, rp: seq<Dlist>, li: seq<i32>, ri: seq<i32>, skip: bool)
    requires |lp| == |rp| == 1 && |local| < TWO_31 && |remote| < TWO_31
    requires lp[0].Some? ==> Prepared(lb, local, lp[0].value)
    requires rp[0].Some? ==> Prepared(rb, remote, rp[0].value)
    ensures Usable(lp, rp, li, ri)
    ensures lp[0].Some? && rp[0].Some? ==> MergeSafe(lp[0].value, rp[0].value, skip)
  {
    hide MergeSafe, Defined, WellFormed, FlatSize;
    CommonOfOne(lp, rp);
    if lp[0].Some? && rp[0].Some? {
      SmallListsUsable(lp[0].value, rp[0].value, [], [], skip);
      if |li| == |ri| { SmallListsUsable(lp[0].value, rp[0].value, li, ri, skip); }
    }
  }

  // ---- Merged descriptors stay inside one registration ----

  ghost predicate DistinctMetas(base: seq<SectionDesc>) {
    forall i, j :: 0 <= i < j < |base| ==> base[i].meta != base[j].meta
  }

  // Every block carries the metadata of a section that covers it.
  ghost predicate BlocksRegistered(base: seq<SectionDesc>, runs: seq<StrideRun>) {
    forall i :: 0 <= i < |Expand(runs)| ==> MetaFor(base, Expand(runs)[i])
  }

  lemma SpanInside(base: seq<SectionDesc>, run: StrideRun, k: nat, s: nat)
    requires DistinctMetas(base) && run.stride == run.len && DenseFits(run) && 0 < s && k + s <= run.count
    requires MetaFor(base, Block(run, k)) && MetaFor(base, Block(run, k + s - 1))
    ensures MetaFor(base, MergeMeaning.Span(run, k, s))
  {
    var i :| 0 <= i < |base| && Covers(base[i].basic, Block(run, k).basic) && base[i].meta == run.meta;
    var j :| 0 <= j < |base| && Covers(base[j].basic, Block(run, k + s - 1).basic) && base[j].meta == run.meta;
    assert i == j;
    MergeMeaning.SpanEnd(run, k, s);
    DenseBlock(run, k);
    var span := MergeMeaning.Span(run, k, s);
    CoverTestsAgree(base[i].basic, Block(run, k).basic);
    CoverTestsAgree(base[i].basic, Block(run, k + s - 1).basic);
    CoverTestsAgree(base[i].basic, span.basic);
    MetaForAt(base, span, i);
  }

  // Blocks idx .. idx + s of one run, merged.
  lemma HeadInside(base: seq<SectionDesc>, runs: seq<StrideRun>, idx: nat, s: u64)
    requires DistinctMetas(base) && BlocksRegistered(base, runs) && WellFormed(runs) && idx < FlatSize(runs)
    requires var run := runs[RunOf(runs, idx)]; 0 < s && InRun(run, idx + s - 1) && (s > 1 ==> run.stride == run.len)
    ensures MetaFor(base, GetMetaDesc(runs[RunOf(runs, idx)], idx, s))
  {
    hide Expand, RunOf, GetMetaDesc, MetaFor, Block;
    var run := runs[RunOf(runs, idx)];
    HeadBlocks(runs, idx, 0);
    HeadBlocks(runs, idx, s - 1);
    if s == 1 {
      GetOneBlock(run, idx);
    } else {
      GetIsSpan(run, idx, s);
      SpanInside(base, run, idx - run.startIdx, s);
    }
  }

  // The merged pair of descriptors at pair i.
  lemma PairInside(lb: seq<SectionDesc>, rb: seq<SectionDesc>, lr: seq<StrideRun>, rr: seq<StrideRun>, li: seq<i32>,
                   ri: seq<i32>, skip: bool, i: nat, a: StrideRun, b: StrideRun)
    requires WellFormed(lr) && WellFormed(rr) && i < |li| == |ri| && Heads(lr, rr, li, ri, i, a, b)
    requires DistinctMetas(lb) && DistinctMetas(rb) && BlocksRegistered(lb, lr) && BlocksRegistered(rb, rr)
    ensures var s := SeqCount(a, b, li, ri, skip, i);
            && MetaFor(lb, GetMetaDesc(a, AsSize(li[i]), s)) && MetaFor(rb, GetMetaDesc(b, AsSize(ri[i]), s))
  {
    hide BlocksRegistered, DistinctMetas, MetaFor, Expand, RunOf, GetMetaDesc, Numbered, CB.RunLength;
    var s := SeqCount(a, b, li, ri, skip, i);
    HeadInside(lb, lr, AsSize(li[i]), s);
    HeadInside(rb, rr, AsSize(ri[i]), s);
  }

  /** With distinct metadata per section, every merged descriptor lies inside one registered section. */
  lemma {:induction false} MergedInsideSections(lb: seq<SectionDesc>, rb: seq<SectionDesc>, lr: seq<StrideRun>,
                                                rr: seq<StrideRun>, li: seq<i32>, ri: seq<i32>, skip: bool, i: nat)
    requires WellFormed(lr) && WellFormed(rr) && i <= |li| == |ri|
    requires DistinctMetas(lb) && DistinctMetas(rb) && BlocksRegistered(lb, lr) && BlocksRegistered(rb, rr)
    ensures var m := Merge(lr, rr, li, ri, skip, i);
            m.Accepted? ==>
              && (forall j :: 0 <= j < |m.local| ==> MetaFor(lb, m.local[j]))
              && (forall j :: 0 <= j < |m.remote| ==> MetaFor(rb, m.remote[j]))
    decreases |li| - i
  {
    hide BlocksRegistered, DistinctMetas, MetaFor, Expand, RunOf, GetMetaDesc, Numbered, RunBytes, SeqCount;
    if i < |li| && AsSize(li[i]) < FlatSize(lr) && AsSize(ri[i]) < FlatSize(rr) &&
       lr[RunOf(lr, AsSize(li[i]))].len == rr[RunOf(rr, AsSize(ri[i]))].len
    {
      var a, b := lr[RunOf(lr, AsSize(li[i]))], rr[RunOf(rr, AsSize(ri[i]))];
      var s := SeqCount(a, b, li, ri, skip, i);
      MergeUnfold(lr, rr, li, ri, skip, i, a, b);
      PairInside(lb, rb, lr, rr, li, ri, skip, i, a, b);
      MergedInsideSections(lb, rb, lr, rr, li, ri, skip, i + s);
    }
  }
}
