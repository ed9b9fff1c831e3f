/**
 The two ways to build a transfer request.

 `CreateXferReq` resolves both descriptor lists element by element. `PrepXferDlist` compresses each
 list once, and `MakeXferReq` selects and merges blocks of two prepared lists. Each goes through the
 agent's backends in some order and takes the first that serves both sides.
 */
module XferPipeline {
  import opened MachineInt
  import opened Descriptors
  import opened StrideRuns
  import opened Coverage
  import opened Populate
  import opened IndexMerging
  import PreStrided

  // What a section map holds for one memory type and backend.
  type Found = Option<seq<SectionDesc>>

  function Base(found: Found): seq<SectionDesc> {
    if found.Some? then found.value else []
  }

  // ---- populate, once the section list was looked up ----

  method PopulateList(found: Found, queryType: MemType, query: seq<BasicDesc>, respType: MemType, resp: seq<MetaDesc>)
    returns (st: Status, resp': seq<MetaDesc>)
    ensures st == InvalidParam <==> queryType != respType || query == []
    ensures st == NotFound <==> queryType == respType && query != [] && found.None?
    ensures st in {InvalidParam, NotFound} ==> resp' == resp
    ensures found.Some? && queryType == respType && query != [] ==>
              && (st == Success || (st == Unknown && resp' == []))
              && (st == Success ==> IsAnswer(found.value, query, resp'))
              && (Registered(found.value) ==> (st == Success <==> AllCovered(found.value, query)))
  {
    if queryType != respType || query == [] { return InvalidParam, resp; }
    if found.None? { return NotFound, resp; }
    var ok;
    ok, resp' := Walk(found.value, query);
    st := if ok then Success else Unknown;
  }

  // The runs stand for the answers to the descriptors, under their own flat indices.
  ghost predicate Prepared(base: seq<SectionDesc>, descs: seq<BasicDesc>, runs: seq<StrideRun>) {
    runs != [] && WellFormed(runs) && FlatSize(runs) == |descs| && IsAnswer(base, descs, Expand(runs))
  }

  method PopulateCompressed(found: Found, queryType: MemType, query: seq<BasicDesc>, respType: MemType,
                            resp: seq<StrideRun>)
    returns (st: Status, resp': seq<StrideRun>)
    requires |query| < TWO_31
    ensures st == InvalidParam <==> queryType != respType || query == []
    ensures st == NotFound <==> queryType == respType && query != [] && found.None?
    ensures st in {InvalidParam, NotFound} ==> resp' == resp
    ensures found.Some? && queryType == respType && query != [] ==>
              && (st == Success || (st == Unknown && resp' == []))
              && (st == Success ==> Prepared(found.value, query, resp') && Tight(resp'))
              && (Registered(found.value) ==> (st == Success <==> AllCovered(found.value, query)))
  {
    if queryType != respType || query == [] { return InvalidParam, resp; }
    if found.None? { return NotFound, resp; }
    var ok;
    ok, resp' := WalkCompressed(found.value, query);
    st := if ok then Success else Unknown;
  }

  method PopulateRuns(found: Found, queryType: MemType, query: seq<PreStrided.StrideDesc>, respType: MemType,
                      resp: seq<StrideRun>)
    returns (st: Status, resp': seq<StrideRun>)
    ensures queryType != respType || query == [] ==> st == InvalidParam && resp' == resp
    ensures queryType == respType && query != [] && found.None? ==> st == NotFound && resp' == resp
    ensures found.Some? && queryType == respType && query != [] ==>
              && (st == Success ==> |resp'| == |query| && PreStrided.AllOk(found.value, query))
              && (st == Success ==> Prepared(found.value, PreStrided.Flatten(query), resp'))
              && (st != Success ==> resp' == [] && st in {InvalidParam, Unknown})
              && (st != Success && Registered(found.value) ==>
                    exists i :: PreStrided.FirstFailure(found.value, query, i, st))
              && (Registered(found.value) ==> (st == Success <==> PreStrided.AllOk(found.value, query)))
  {
    hide Registered, WellFormed, IsAnswer, Expand, PreStrided.RunOk;
    if queryType != respType || query == [] { return InvalidParam, resp; }
    if found.None? { return NotFound, resp; }
    st, resp' := PreStrided.ResolveRuns(found.value, query);
    if resp' == [] { assert st != Success; }
  }

  // ---- Creating a request ----

  // One backend: its section lists on both sides, and whether it can notify.
  datatype Backend = Backend(local: Found, remote: Found, supportsNotif: bool)

  // The answer of prepXfer of backend i, for the descriptors of a request.
  type Prepare = (nat, seq<MetaDesc>, seq<MetaDesc>) -> Status

  predicate Matching(local: seq<BasicDesc>, remote: seq<BasicDesc>) {
    |local| == |remote| && forall i :: 0 <= i < |local| ==> local[i].len == remote[i].len
  }

  // The backend has everything registered.
  ghost predicate Serves(b: Backend, local: seq<BasicDesc>, remote: seq<BasicDesc>) {
    local != [] && remote != [] && AllCovered(Base(b.local), local) && AllCovered(Base(b.remote), remote)
  }

  ghost predicate AllRegistered(backends: seq<Backend>) {
    forall i :: 0 <= i < |backends| ==> Registered(Base(backends[i].local)) && Registered(Base(backends[i].remote))
  }

  // The place of the first backend that serves both lists, or the number of backends.
  ghost function FirstServing(backends: seq<Backend>, local: seq<BasicDesc>, remote: seq<BasicDesc>): (f: nat)
    ensures f <= |backends| && (f < |backends| ==> Serves(backends[f], local, remote))
    ensures forall i :: 0 <= i < f ==> !Serves(backends[i], local, remote)
  {
    if backends == [] || Serves(backends[0], local, remote) then 0 else 1 + FirstServing(backends[1..], local, remote)
  }

  lemma FirstIs(backends: seq<Backend>, local: seq<BasicDesc>, remote: seq<BasicDesc>, f: nat)
    requires f <= |backends| && (f < |backends| ==> Serves(backends[f], local, remote))
    requires forall i :: 0 <= i < f ==> !Serves(backends[i], local, remote)
    ensures FirstServing(backends, local, remote) == f
  {
  }

  lemma NothingRegistered(query: seq<BasicDesc>)
    requires query != []
    ensures !AllCovered([], query)
  {
    assert !Covered([], query[0]);
  }

  // The descriptors of both sides for one backend.
  method Resolve(b: Backend, lt: MemType, local: seq<BasicDesc>, rt: MemType, remote: seq<BasicDesc>,
                 before: seq<MetaDesc>, before': seq<MetaDesc>)
    returns (ok: bool, initiator: seq<MetaDesc>, target: seq<MetaDesc>)
    ensures ok ==> IsAnswer(Base(b.local), local, initiator) && IsAnswer(Base(b.remote), remote, target)
    ensures Registered(Base(b.local)) && Registered(Base(b.remote)) ==> (ok <==> Serves(b, local, remote))
  {
    hide Registered, IsAnswer, AllCovered;
    if local != [] { NothingRegistered(local); }
    if remote != [] { NothingRegistered(remote); }
    var st1, st2;
    st1, initiator := PopulateList(b.local, lt, local, lt, before);
    st2, target := PopulateList(b.remote, rt, remote, rt, before');
    ok := st1 == Success && st2 == Success;
  }

  // The first backend for which both sides resolve.
  method ChooseBackend(backends: seq<Backend>, lt: MemType, local: seq<BasicDesc>, rt: MemType, remote: seq<BasicDesc>)
    returns (k: nat, initiator: seq<MetaDesc>, target: seq<MetaDesc>)
    ensures k <= |backends|
    ensures k < |backends| ==>
              IsAnswer(Base(backends[k].local), local, initiator) && IsAnswer(Base(backends[k].remote), remote, target)
    ensures AllRegistered(backends) ==> k == FirstServing(backends, local, remote)
  {
    hide Registered, IsAnswer, Serves;
    initiator, target, k := [], [], 0;
    while k < |backends|
      invariant k <= |backends|
      invariant AllRegistered(backends) ==> forall i :: 0 <= i < k ==> !Serves(backends[i], local, remote)
    {
      var ok;
      ok, initiator, target := Resolve(backends[k], lt, local, rt, remote, initiator, target);
      if ok {
        if AllRegistered(backends) { FirstIs(backends, local, remote, k); }
        return;
      }
      k := k + 1;
    }
    if AllRegistered(backends) { FirstIs(backends, local, remote, k); }
  }

  // Sizes and lengths are compared before anything is looked up.
  method TotalBytes(local: seq<BasicDesc>, remote: seq<BasicDesc>) returns (ok: bool, totalBytes: u64)
    ensures ok <==> Matching(local, remote)
    ensures ok ==> totalBytes == SumLen(local) % TWO_64
  {
    totalBytes := 0;
    if |local| != |remote| { return false, 0; }
    ghost var sum: nat := 0;
    var i := 0;
    while i < |local|
      invariant i <= |local| && totalBytes == sum % TWO_64 && sum == SumLen(local[..i])
      invariant forall j :: 0 <= j < i ==> local[j].len == remote[j].len
    {
      if local[i].len != remote[i].len { return false, 0; }
      AddMod(sum, local[i].len);
      SumLenAppend(local, i);
      totalBytes := Add64(totalBytes, local[i].len);
      sum := sum + local[i].len;
      i := i + 1;
    }
    assert local[..i] == local;
    ok := true;
  }

  /**
   createXferReq. A request that reaches a backend's prepXfer names that backend in `chosen`, and its
   status is the backend's answer; every other status says why it got no further.
   */
  method CreateXferReq(backends: seq<Backend>, remoteKnown: bool, lt: MemType, local: seq<BasicDesc>,
                       rt: MemType, remote: seq<BasicDesc>, notif: bool, prep: Prepare)
    returns (st: Status, chosen: Option<nat>, initiator: seq<MetaDesc>, target: seq<MetaDesc>, totalBytes: u64)
    ensures chosen.Some? ==>
              && chosen.value < |backends| && Matching(local, remote) && remoteKnown
              && (notif ==> backends[chosen.value].supportsNotif)
              && IsAnswer(Base(backends[chosen.value].local), local, initiator)
              && IsAnswer(Base(backends[chosen.value].remote), remote, target)
              && totalBytes == TotalLen(initiator) % TWO_64
              && st == prep(chosen.value, initiator, target)
    ensures chosen.None? ==>
              (st == InvalidParam <==> !Matching(local, remote)) && st in {InvalidParam, NotFound, BackendError}
    ensures AllRegistered(backends) && Matching(local, remote) ==>
              var f := FirstServing(backends, local, remote);
              if !remoteKnown || f == |backends| then chosen == None && st == NotFound
              else if notif && !backends[f].supportsNotif then chosen == None && st == BackendError
              else chosen == Some(f)
  {
    hide Registered, IsAnswer, AllRegistered, Serves;
    chosen, initiator, target := None, [], [];
    var ok, k;
    ok, totalBytes := TotalBytes(local, remote);
    if !ok { return InvalidParam, None, [], [], 0; }
    if !remoteKnown { return NotFound, None, [], [], 0; }
    k, initiator, target := ChooseBackend(backends, lt, local, rt, remote);
    if k == |backends| { return NotFound, None, [], [], 0; }
    AnswerLen(Base(backends[k].local), local, initiator);
    if notif && !backends[k].supportsNotif { return BackendError, None, [], [], 0; }
    st, chosen := prep(k, initiator, target), Some(k);
  }

  function SumLen(query: seq<BasicDesc>): nat {
    if query == [] then 0 else query[0].len + SumLen(query[1..])
  }

  lemma {:induction false} SumLenAppend(query: seq<BasicDesc>, i: nat)
    requires i < |query|
    ensures SumLen(query[..i + 1]) == SumLen(query[..i]) + query[i].len
    decreases i
  {
    if i > 0 {
      assert query[..i + 1][1..] == query[1..][..i] && query[..i][1..] == query[1..][..i - 1];
      SumLenAppend(query[1..], i - 1);
    }
  }

  lemma {:induction false} AnswerLen(base: seq<SectionDesc>, query: seq<BasicDesc>, resp: seq<MetaDesc>)
    requires IsAnswer(base, query, resp)
    ensures TotalLen(resp) == SumLen(query)
    decreases |query|
  {
    if query != [] {
      assert forall i :: 0 <= i < |query| - 1 ==> resp[1..][i] == resp[i + 1] && query[1..][i] == query[i + 1];
      AnswerLen(base, query[1..], resp[1..]);
    }
  }

  // ---- Preparing lists and making a request of them ----

  type Dlist = Option<seq<StrideRun>>

  // What preparing a list gives: for each backend its runs, if it has the whole list registered.
  ghost predicate PreparedFor(lists: seq<Found>, descs: seq<BasicDesc>, dlists: seq<Dlist>) {
    && |dlists| == |lists|
    && forall i :: 0 <= i < |lists| && dlists[i].Some? ==> Prepared(Base(lists[i]), descs, dlists[i].value)
  }

  // prepXferDlist, for a list of descriptors.
  method PrepXferDlist(lists: seq<Found>, known: bool, t: MemType, descs: seq<BasicDesc>)
    returns (st: Status, dlists: seq<Dlist>)
    requires |descs| < TWO_31
    ensures st in {Success, NotFound} && PreparedFor(lists, descs, dlists)
    ensures st == Success <==> exists i :: 0 <= i < |lists| && dlists[i].Some?
    ensures !known ==> st == NotFound
    ensures known ==> forall i :: 0 <= i < |lists| && Registered(Base(lists[i])) ==>
                        (dlists[i].Some? <==> descs != [] && AllCovered(Base(lists[i]), descs))
  {
    hide Registered, AllCovered, Prepared;
    if !known { return NotFound, seq(|lists|, i => None); }
    if descs != [] { NothingRegistered(descs); }
    dlists := [];
    st := NotFound;
    for k := 0 to |lists|
      invariant |dlists| == k && st in {Success, NotFound} && PreparedFor(lists[..k], descs, dlists)
      invariant st == Success <==> exists i :: 0 <= i < k && dlists[i].Some?
      invariant forall i :: 0 <= i < k && Registered(Base(lists[i])) ==>
                              (dlists[i].Some? <==> descs != [] && AllCovered(Base(lists[i]), descs))
    {
      var one, runs := PopulateCompressed(lists[k], t, descs, t, []);
      ghost var had := dlists;
      dlists := dlists + [if one == Success then Some(runs) else None];
      assert forall i :: 0 <= i < k ==> dlists[i] == had[i];
      if one == Success {
        st := Success;
        assert dlists[k].Some?;
      }
    }
    assert lists[..|lists|] == lists;
  }

  // prepXferDlist, for runs that are strided already.
  method PrepStrided(lists: seq<Found>, known: bool, t: MemType, query: seq<PreStrided.StrideDesc>)
    returns (st: Status, dlists: seq<Dlist>)
    ensures st in {Success, NotFound} && PreparedFor(lists, PreStrided.Flatten(query), dlists)
    ensures st == Success <==> exists i :: 0 <= i < |lists| && dlists[i].Some?
    ensures !known ==> st == NotFound
    ensures forall i :: 0 <= i < |lists| && dlists[i].Some? ==>
                          |dlists[i].value| == |query| && PreStrided.AllOk(Base(lists[i]), query)
    ensures known ==> forall i :: 0 <= i < |lists| && lists[i].Some? && Registered(lists[i].value) ==>
                        (dlists[i].Some? <==> query != [] && PreStrided.AllOk(lists[i].value, query))
  {
    hide Registered, Prepared, PreStrided.AllOk, PreStrided.Flatten;
    if !known { return NotFound, seq(|lists|, i => None); }
    dlists := [];
    st := NotFound;
    for k := 0 to |lists|
      invariant |dlists| == k && st in {Success, NotFound} && PreparedFor(lists[..k], PreStrided.Flatten(query), dlists)
      invariant st == Success <==> exists i :: 0 <= i < k && dlists[i].Some?
      invariant forall i :: 0 <= i < k && dlists[i].Some? ==>
                              |dlists[i].value| == |query| && PreStrided.AllOk(Base(lists[i]), query)
      invariant forall i :: 0 <= i < k && lists[i].Some? && Registered(lists[i].value) ==>
                              (dlists[i].Some? <==> query != [] && PreStrided.AllOk(lists[i].value, query))
    {
      var one, runs := PopulateRuns(lists[k], t, query, t, []);
      ghost var had := dlists;
      dlists := dlists + [if one == Success then Some(runs) else None];
      assert forall i :: 0 <= i < k ==> dlists[i] == had[i];
      if one == Success {
        st := Success;
        assert dlists[k].Some?;
      }
    }
    assert lists[..|lists|] == lists;
  }

  // The first backend for which both sides are prepared, or the number of backends.
  function Common(lp: seq<Dlist>, rp: seq<Dlist>): (c: nat)
    requires |lp| == |rp|
    ensures c <= |lp| && (c < |lp| ==> lp[c].Some? && rp[c].Some?)
    ensures forall i :: 0 <= i < c ==> !(lp[i].Some? && rp[i].Some?)
  {
    if lp == [] || (lp[0].Some? && rp[0].Some?) then 0 else 1 + Common(lp[1..], rp[1..])
  }

  // Both sides are prepared, and the first pair can be looked up.
  ghost predicate Usable(lp: seq<Dlist>, rp: seq<Dlist>, li: seq<i32>, ri: seq<i32>)
    requires |lp| == |rp|
  {
    var c := Common(lp, rp);
    c < |lp| ==>
      && WellFormed(lp[c].value) && WellFormed(rp[c].value)
      && 0 < |lp[c].value| < TWO_64 && 0 < |rp[c].value| < TWO_64
      && (|li| == |ri| ==> Defined(lp[c].value, rp[c].value, li, ri))
  }

  // What the merge of the common backend's lists gives.
  ghost function MergeOf(lp: seq<Dlist>, li: seq<i32>, rp: seq<Dlist>, ri: seq<i32>, skip: bool): Merged
    requires |lp| == |rp| && |li| == |ri| && Common(lp, rp) < |lp| && Usable(lp, rp, li, ri)
  {
    Merge(lp[Common(lp, rp)].value, rp[Common(lp, rp)].value, li, ri, skip, 0)
  }

  /** makeXferReq: it reaches prepXfer exactly when every check passes and the merge accepts the indices. */
  method MakeXferReq(sidesOk: bool, lp: seq<Dlist>, li: seq<i32>, rp: seq<Dlist>, ri: seq<i32>,
                     supportsNotif: seq<bool>, skip: bool, notif: bool, expired: bool, prep: Prepare)
    returns (st: Status, chosen: Option<nat>, initiator: seq<MetaDesc>, target: seq<MetaDesc>, totalBytes: u64)
    requires |lp| == |rp| == |supportsNotif| && |li| < TWO_31 && |ri| < TWO_31 && Usable(lp, rp, li, ri)
    ensures chosen.Some? ==>
              && chosen.value == Common(lp, rp) < |lp| && |li| == |ri| && |initiator| == |target|
              && MergeOf(lp, li, rp, ri, skip).Accepted?
              && MergeOf(lp, li, rp, ri, skip).local == initiator && MergeOf(lp, li, rp, ri, skip).remote == target
              && totalBytes == MergeOf(lp, li, rp, ri, skip).bytes % TWO_64
              && st == prep(chosen.value, initiator, target)
    ensures chosen.Some? <==>
            && sidesOk && |li| == |ri| != 0 && Common(lp, rp) < |lp| && (notif ==> supportsNotif[Common(lp, rp)])
            && !expired && MergeOf(lp, li, rp, ri, skip).Accepted?
    ensures chosen.None? ==>
              st == if !sidesOk || |li| != |ri| || |li| == 0 || Common(lp, rp) == |lp| then InvalidParam
                    else if notif && !supportsNotif[Common(lp, rp)] then BackendError
                    else if expired then NotFound
                    else InvalidParam
  {
    hide Merge, WellFormed, Defined, Common;
    chosen, initiator, target, totalBytes := None, [], [], 0;
    if !sidesOk { return InvalidParam, None, [], [], 0; }
    if |li| == 0 || |ri| == 0 || |li| != |ri| { return InvalidParam, None, [], [], 0; }
    var c := Common(lp, rp);
    if c == |lp| { return InvalidParam, None, [], [], 0; }
    if notif && !supportsNotif[c] { return BackendError, None, [], [], 0; }
    if expired { return NotFound, None, [], [], 0; }
    var ok;
    WellFormedNumbers(lp[c].value);
    WellFormedNumbers(rp[c].value);
    ok, initiator, target, totalBytes := MergeIndices(lp[c].value, rp[c].value, li, ri, skip);
    if !ok { return InvalidParam, None, initiator, target, totalBytes; }
    st, chosen := prep(c, initiator, target), Some(c);
  }

  lemma WellFormedNumbers(runs: seq<StrideRun>)
    requires WellFormed(runs)
    ensures Numbered(runs)
  {
  }
}
