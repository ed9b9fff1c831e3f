/**
 The life of one transfer request: posted any number of times, polled, cancelled or released. The
 backend answers each call as it likes, a release included. It must never be handed a post while one is
 in flight, nor any call once it has released its handle: those are its preconditions.
 */
module XferRequest {
  import opened Descriptors

  type Message = nat

  // What a backend answers to the calls of postXfer, checkXfer and releaseReqH, one after the other.
  datatype Answers = Answers(onPost: nat -> Status, onCheck: nat -> Status, onRelease: nat -> Status)

  /** The backend's side of one request handle. */
  class BackendReq {
    const answers: Answers
    var inFlight: bool
    var released: bool
    // how often it was asked
    var posts: nat
    var checks: nat
    var releaseCalls: nat
    // the notification of every post, and the calls of releaseReqH that were accepted and refused
    ghost var posted: seq<Option<Message>>
    ghost var releases: nat
    ghost var refusals: nat

    ghost predicate Counted()
      reads this
    {
      posts == |posted| && releaseCalls == releases + refusals
    }

    constructor (answers: Answers)
      ensures this.answers == answers && !inFlight && !released && Counted()
      ensures posts == 0 && checks == 0 && releases == 0 && refusals == 0
    {
      this.answers := answers;
      inFlight, released, posts, checks, releaseCalls := false, false, 0, 0, 0;
      posted, releases, refusals := [], 0, 0;
    }

    method PostXfer(notif: Option<Message>) returns (st: Status)
      requires !inFlight && !released && Counted()
      modifies `inFlight, `posts, `posted
      ensures Counted() && st == answers.onPost(old(posts)) && inFlight == (st == InProg)
      ensures posted == old(posted) + [notif]
    {
      st := answers.onPost(posts);
      inFlight, posts, posted := st == InProg, posts + 1, posted + [notif];
    }

    method CheckXfer() returns (st: Status)
      requires inFlight && !released && Counted()
      modifies `inFlight, `checks
      ensures Counted() && st == answers.onCheck(old(checks)) && inFlight == (st == InProg)
      ensures checks == old(checks) + 1
    {
      st := answers.onCheck(checks);
      inFlight, checks := st == InProg, checks + 1;
    }

    // A refusal changes nothing.
    method ReleaseReqH() returns (st: Status)
      requires !released && Counted()
      modifies `inFlight, `released, `releaseCalls, `releases, `refusals
      ensures Counted() && st == answers.onRelease(old(releaseCalls))
      ensures st.IsError() ==>
                inFlight == old(inFlight) && !released && releases == old(releases) && refusals == old(refusals) + 1
      ensures !st.IsError() ==> !inFlight && released && releases == old(releases) + 1 && refusals == old(refusals)
    {
      st, releaseCalls := answers.onRelease(releaseCalls), releaseCalls + 1;
      if st.IsError() {
        refusals := refusals + 1;
      } else {
        inFlight, released, releases := false, true, releases + 1;
      }
    }
  }

  // extra_params of a post: none, with a notification, or without one.
  datatype Extra = NoExtra | Saying(notif: Option<Message>)

  // ---- What the operations do, on a view of the request and its backend handle ----

  datatype View = View(status: Status, notif: Option<Message>, gone: bool, posted: seq<Option<Message>>, checks: nat,
                       completed: nat, failed: nat, releases: nat, refusals: nat)
  {
    // A terminal event is recorded for a status that is one.
    function Recorded(st: Status): View {
      this.(status := st, completed := completed + (if st == Success then 1 else 0),
            failed := failed + if st.IsError() then 1 else 0)
    }
  }

  // Posts that have had their terminal event, and the one that has not.
  predicate Balanced(v: View) {
    |v.posted| == v.completed + v.failed + if v.status == InProg && !v.gone then 1 else 0
  }

  // A transfer in progress is looked at, and its end recorded.
  function Looked(a: Answers, v: View): View {
    v.(checks := v.checks + 1).Recorded(a.onCheck(v.checks))
  }

  // The notification of a post: the one it was given, or the one of the post before.
  function Said(v: View, extra: Extra): Option<Message> {
    if extra.Saying? then extra.notif else v.notif
  }

  // Posting when nothing is in progress: refused for a notification the backend cannot send.
  predicate FreshPost(a: Answers, v: View, st: Status, w: View, extra: Extra, supportsNotif: bool) {
    var asks := v.(notif := Said(v, extra));
    if asks.notif.Some? && !supportsNotif then st == BackendError && w == asks
    else st == a.onPost(|v.posted|) && w == asks.(posted := v.posted + [asks.notif]).Recorded(st)
  }

  /**
   postXferReq: refused for an expired registration. A transfer in progress is looked at first, and its
   end recorded; the post is refused if it goes on or was disconnected. Otherwise it reaches the backend.
   */
  predicate PostStep(a: Answers, v: View, st: Status, w: View, expired: bool, extra: Extra, supportsNotif: bool) {
    if expired then st == NotFound && w == v
    else if v.status != InProg then FreshPost(a, v, st, w, extra, supportsNotif)
    else
      var m := Looked(a, v);
      if m.status == InProg then st == RepostActive && w == m
      else if m.status == RemoteDisconnect then st == RemoteDisconnect && w == m
      else FreshPost(a, m, st, w, extra, supportsNotif)
  }

  // getXferStatus: a transfer in progress is looked at once, unless its registration has expired.
  predicate StatusStep(a: Answers, v: View, st: Status, w: View, expired: bool) {
    if v.status != InProg then w == v && st == v.status
    else if expired then w == v && st == NotFound
    else w == Looked(a, v) && st == w.status
  }

  /**
   releaseXferReq: a transfer in progress is looked at, and cancelled if it goes on, which counts as its
   failure. If the backend refuses, the request stays as it is. Otherwise it is gone, and the destructor
   asks for the release of a handle that no cancellation has released, whatever the answer.
   */
  predicate ReleaseStep(a: Answers, v: View, st: Status, w: View) {
    var m := if v.status == InProg then Looked(a, v) else v;
    var answer := a.onRelease(v.releases + v.refusals);
    if m.status == InProg && answer.IsError() then st == RepostActive && w == m.(refusals := v.refusals + 1)
    else
      && st == Success
      && w == m.(gone := true,
                 status := if m.status == InProg then answer else m.status,
                 failed := m.failed + (if m.status == InProg then 1 else 0),
                 releases := v.releases + (if answer.IsError() then 0 else 1),
                 refusals := v.refusals + if answer.IsError() then 1 else 0)
  }

  class XferReqH {
    const backend: BackendReq
    const supportsNotif: bool
    var status: Status
    var notif: Option<Message>
    var deleted: bool
    // trace events
    ghost var completed: nat
    ghost var failed: nat

    ghost function Now(): View
      reads this, backend
    {
      View(status, notif, deleted, backend.posted, backend.checks, completed, failed, backend.releases,
           backend.refusals)
    }

    // Every post the backend accepted has had its one terminal event, except the one in progress.
    ghost predicate Valid()
      reads this, backend
    {
      && !deleted && !backend.released && backend.releases == 0 && backend.Counted()
      && (status == InProg <==> backend.inFlight)
      && Balanced(Now())
    }

    constructor (backend: BackendReq, supportsNotif: bool, notif: Option<Message>)
      requires !backend.inFlight && !backend.released && backend.Counted()
      requires backend.posts == 0 && backend.releases == 0
      ensures Valid() && this.backend == backend && this.supportsNotif == supportsNotif
      ensures Now() == View(NotPosted, notif, false, [], backend.checks, 0, 0, 0, backend.refusals)
    {
      this.backend, this.supportsNotif, this.notif := backend, supportsNotif, notif;
      status, deleted, completed, failed := NotPosted, false, 0, 0;
    }

    // Asks the backend about the transfer in progress and records its end.
    method Check()
      requires Valid() && status == InProg
      modifies this`status, this`completed, this`failed, backend
      ensures Valid() && Now() == Looked(backend.answers, old(Now()))
    {
      status := backend.CheckXfer();
      if status == Success { completed := completed + 1; }
      if status.IsError() { failed := failed + 1; }
    }

    // The part of postXferReq behind the check of a transfer in progress.
    method PostFresh(extra: Extra) returns (st: Status)
      requires Valid() && status != InProg
      modifies this, backend
      ensures Valid() && FreshPost(backend.answers, old(Now()), st, Now(), extra, supportsNotif)
    {
      if extra.Saying? { notif := extra.notif; }
      if notif.Some? && !supportsNotif { return BackendError; }
      status := backend.PostXfer(notif);
      if status.IsError() { failed := failed + 1; }
      if status == Success { completed := completed + 1; }
      st := status;
    }

    method Post(expired: bool, extra: Extra) returns (st: Status)
      requires Valid()
      modifies this, backend
      ensures Valid() && PostStep(backend.answers, old(Now()), st, Now(), expired, extra, supportsNotif)
    {
      hide FreshPost, Balanced;
      if expired { return NotFound; }
      if status == InProg {
        Check();
        if status == InProg { return RepostActive; }
        if status == RemoteDisconnect { return RemoteDisconnect; }
      }
      st := PostFresh(extra);
    }

    method GetStatus(expired: bool) returns (st: Status)
      requires Valid()
      modifies this, backend
      ensures Valid() && StatusStep(backend.answers, old(Now()), st, Now(), expired)
    {
      if status == InProg {
        if expired { return NotFound; }
        Check();
      }
      st := status;
    }

    method Release() returns (st: Status)
      requires Valid()
      modifies this, backend
      ensures ReleaseStep(backend.answers, old(Now()), st, Now())
      ensures if st == Success then deleted && Balanced(Now()) else Valid()
    {
      var handle := true; // backendHandle != nullptr
      if status == InProg {
        Check();
        if status == InProg {
          var releaseStatus := backend.ReleaseReqH();
          if releaseStatus.IsError() { return RepostActive; }
          failed := failed + 1; // NIXL_ERR_CANCELED
          status := releaseStatus;
          handle := false;
        }
      }
      // the destructor
      if handle { var _ := backend.ReleaseReqH(); }
      deleted := true;
      st := Success;
    }
  }

  // ---- Whole runs ----

  datatype ReqOp = DoPost(expired: bool, extra: Extra) | DoStatus(expired: bool) | DoRelease

  predicate StepOf(a: Answers, v: View, op: ReqOp, st: Status, w: View, supportsNotif: bool) {
    match op
    case DoPost(expired, extra) => PostStep(a, v, st, w, expired, extra, supportsNotif)
    case DoStatus(expired) => StatusStep(a, v, st, w, expired)
    case DoRelease => ReleaseStep(a, v, st, w)
  }

  // A run on one request: what it was like between the operations and what they answered.
  datatype Run = Run(a: Answers, supportsNotif: bool, ops: seq<ReqOp>, views: seq<View>, answers: seq<Status>) {
    // It ends with the release that succeeds, or with the operations.
    ghost predicate Valid() {
      && |views| == |answers| + 1 && |answers| <= |ops|
      && (forall i :: 0 <= i < |answers| ==> StepOf(a, views[i], ops[i], answers[i], views[i + 1], supportsNotif))
      && (forall i :: 0 <= i < |answers| ==> !views[i].gone && views[i].releases == 0)
      && Balanced(views[0])
    }

    // Operation i asks the backend about a transfer in progress.
    predicate Looks(i: nat)
      requires i < |views| && i < |ops|
    {
      views[i].status == InProg && (ops[i].DoRelease? || !ops[i].expired)
    }

    // Operation i is a post that is neither expired nor held up by a transfer in progress.
    predicate Attempts(i: nat)
      requires i < |views| && i < |ops|
    {
      && ops[i].DoPost? && !ops[i].expired
      && (views[i].status == InProg ==>
            a.onCheck(views[i].checks) != InProg && a.onCheck(views[i].checks) != RemoteDisconnect)
    }

    // How many of the first n operations asked the backend about a transfer.
    ghost function Lookups(n: nat): nat
      requires n <= |ops| && n <= |views|
    {
      if n == 0 then 0 else Lookups(n - 1) + if Looks(n - 1) then 1 else 0
    }

    // The notification in force after n operations: the last one that a post was given.
    ghost function Notif(n: nat): Option<Message>
      requires n <= |ops| && n < |views|
    {
      if n == 0 then views[0].notif
      else if Attempts(n - 1) && ops[n - 1].extra.Saying? then ops[n - 1].extra.notif
      else Notif(n - 1)
    }

    // The posts that reached the backend, each with its notification.
    ghost function Posted(n: nat): seq<Option<Message>>
      requires n <= |ops| && n < |views|
    {
      if n == 0 then []
      else Posted(n - 1) + if Attempts(n - 1) && (Notif(n).Some? ==> supportsNotif) then [Notif(n)] else []
    }

    ghost function Refused(n: nat): nat
      requires n <= |answers| <= |ops|
    {
      if n == 0 then 0 else Refused(n - 1) + if ops[n - 1].DoRelease? && answers[n - 1] == RepostActive then 1 else 0
    }

    // Operation i cancels a transfer in progress.
    predicate Cancels(i: nat)
      requires i < |views| && i < |ops|
    {
      && ops[i].DoRelease? && views[i].status == InProg && a.onCheck(views[i].checks) == InProg
      && !a.onRelease(views[i].releases + views[i].refusals).IsError()
    }
  }

  // How many of the answers from one number to another are successes, and how many failures.
  function Successes(on: nat -> Status, from: nat, to: nat): nat
    requires from <= to
  {
    if from == to then 0 else Successes(on, from, to - 1) + if on(to - 1) == Success then 1 else 0
  }

  function Failures(on: nat -> Status, from: nat, to: nat): nat
    requires from <= to
  {
    if from == to then 0 else Failures(on, from, to - 1) + if on(to - 1).IsError() then 1 else 0
  }

  lemma StepAt(run: Run, n: nat)
    requires run.Valid() && 0 < n <= |run.answers|
    ensures StepOf(run.a, run.views[n - 1], run.ops[n - 1], run.answers[n - 1], run.views[n], run.supportsNotif)
    ensures !run.views[n - 1].gone && run.views[n - 1].releases == 0
  {
  }

  // What one operation does to the release of the handle.
  lemma StepReleases(run: Run, n: nat)
    requires run.Valid() && 0 < n <= |run.answers|
    ensures var v, w, op, st := run.views[n - 1], run.views[n], run.ops[n - 1], run.answers[n - 1];
            && (w.gone <==> op.DoRelease? && st == Success)
            && (op.DoRelease? ==> st == Success || st == RepostActive)
            && (!op.DoRelease? ==> w.releases == v.releases && w.refusals == v.refusals)
            && (op.DoRelease? ==>
                  var refused := run.a.onRelease(v.releases + v.refusals).IsError();
                  && w.releases == v.releases + (if refused then 0 else 1)
                  && w.refusals == v.refusals + (if refused then 1 else 0)
                  && (st == RepostActive ==> refused))
  {
    StepAt(run, n);
  }

  /**
   A request is gone exactly by a release that answers success. releaseReqH was called once for each
   refused release, and once more for that one, whose answer alone says if the handle was released.
   */
  lemma {:induction false} RunReleases(run: Run, n: nat)
    requires run.Valid() && n <= |run.answers| && !run.views[0].gone && run.views[0].releases == 0
    ensures run.views[n].gone <==> n > 0 && run.ops[n - 1].DoRelease? && run.answers[n - 1] == Success
    ensures forall i :: 0 <= i < n - 1 && run.ops[i].DoRelease? ==> run.answers[i] == RepostActive
    ensures run.views[n].releases + run.views[n].refusals
         == run.views[0].refusals + run.Refused(n) + if run.views[n].gone then 1 else 0
    ensures !run.views[n].gone ==> run.views[n].releases == 0
    ensures run.views[n].gone ==>
              var last := run.a.onRelease(run.views[0].refusals + run.Refused(n));
              run.views[n].releases == if last.IsError() then 0 else 1
  {
    hide StepOf;
    if n > 0 {
      RunReleases(run, n - 1);
      StepReleases(run, n);
      if n > 1 { StepReleases(run, n - 1); }
    }
  }

  /**
   The backend is asked about a transfer exactly once by every operation that finds one in progress and
   is not expired, and never otherwise. It is handed exactly the posts that are neither expired nor held
   up, each with the notification in force, and none with one that it cannot send.
   */
  lemma {:induction false} RunCalls(run: Run, n: nat)
    requires run.Valid() && n <= |run.answers|
    ensures run.views[n].checks == run.views[0].checks + run.Lookups(n)
    ensures run.views[n].notif == run.Notif(n)
    ensures run.views[n].posted == run.views[0].posted + run.Posted(n)
  {
    if n > 0 {
      RunCalls(run, n - 1);
      StepAt(run, n);
    }
  }

  // One operation adds the events of the answers it gets.
  lemma StepEvents(run: Run, n: nat)
    requires run.Valid() && 0 < n <= |run.answers|
    ensures var v, w := run.views[n - 1], run.views[n];
            && |v.posted| <= |w.posted| <= |v.posted| + 1 && v.checks <= w.checks <= v.checks + 1
            && w.completed == v.completed + Successes(run.a.onPost, |v.posted|, |w.posted|)
                              + Successes(run.a.onCheck, v.checks, w.checks)
            && w.failed == v.failed + Failures(run.a.onPost, |v.posted|, |w.posted|)
                           + Failures(run.a.onCheck, v.checks, w.checks) + if run.Cancels(n - 1) then 1 else 0
  {
    StepAt(run, n);
    var v := run.views[n - 1];
    assert Successes(run.a.onPost, |v.posted|, |v.posted|) == 0 && Successes(run.a.onCheck, v.checks, v.checks) == 0;
    assert Failures(run.a.onPost, |v.posted|, |v.posted|) == 0 && Failures(run.a.onCheck, v.checks, v.checks) == 0;
  }

  lemma {:induction false} CountsAdd(on: nat -> Status, from: nat, mid: nat, to: nat)
    requires from <= mid <= to
    ensures Successes(on, from, to) == Successes(on, from, mid) + Successes(on, mid, to)
    ensures Failures(on, from, to) == Failures(on, from, mid) + Failures(on, mid, to)
  {
    if mid < to { CountsAdd(on, from, mid, to - 1); }
  }

  /**
   The terminal events of a run: a completion for every success that a post or a check was answered, a
   failure for every error, and one more failure for the transfer that the release cancelled.
   */
  lemma {:induction false} RunEvents(run: Run, n: nat)
    requires run.Valid() && n <= |run.answers|
    ensures var v, w := run.views[0], run.views[n];
            && |v.posted| <= |w.posted| && v.checks <= w.checks
            && w.completed == v.completed + Successes(run.a.onPost, |v.posted|, |w.posted|)
                              + Successes(run.a.onCheck, v.checks, w.checks)
            && w.failed == v.failed + Failures(run.a.onPost, |v.posted|, |w.posted|)
                           + Failures(run.a.onCheck, v.checks, w.checks)
                           + if n > 0 && run.Cancels(n - 1) then 1 else 0
    ensures n < |run.answers| ==> n == 0 || !run.Cancels(n - 1)
  {
    hide StepOf, Run.Cancels;
    if n > 0 {
      RunEvents(run, n - 1);
      StepEvents(run, n);
      var v, m, w := run.views[0], run.views[n - 1], run.views[n];
      CountsAdd(run.a.onPost, |v.posted|, |m.posted|, |w.posted|);
      CountsAdd(run.a.onCheck, v.checks, m.checks, w.checks);
    }
    if n < |run.answers| && n > 0 { OnlyLastCancels(run, n); }
  }

  lemma OnlyLastCancels(run: Run, n: nat)
    requires run.Valid() && 0 < n < |run.answers|
    ensures !run.Cancels(n - 1)
  {
    StepAt(run, n);
    StepAt(run, n + 1);
  }

  /** So every post has exactly one terminal event, except the one in progress. */
  lemma {:induction false} RunBalanced(run: Run, n: nat)
    requires run.Valid() && n <= |run.answers|
    ensures Balanced(run.views[n])
  {
    if n > 0 {
      RunBalanced(run, n - 1);
      StepAt(run, n);
    }
  }

  /**
   A transfer's end is noticed: whatever the backend would answer next about a transfer in progress is
   what the next status call that is not expired answers, and what it records.
   */
  lemma {:induction false} EndNoticed(run: Run, i: nat, j: nat)
    requires run.Valid() && i <= j < |run.answers| && run.views[i].status == InProg
    requires forall k :: i <= k < j ==> !run.ops[k].DoRelease? && run.ops[k].expired
    requires run.ops[j] == DoStatus(false)
    ensures run.answers[j] == run.views[j + 1].status == run.a.onCheck(run.views[i].checks)
    ensures run.views[j + 1].completed
         == run.views[i].completed + if run.a.onCheck(run.views[i].checks) == Success then 1 else 0
  {
    var k := i;
    while k < j
      invariant i <= k <= j && run.views[k] == run.views[i]
    {
      StepAt(run, k + 1);
      k := k + 1;
    }
    StepAt(run, j + 1);
  }

  /**
   Request accounting over any run of posts, status calls and releases, up to the release that succeeds.
   A request that is gone had its handle released if and only if the backend accepted the last call of
   releaseReqH, which the destructor does not look at.
   */
  method RunRequest(req: XferReqH, ops: seq<ReqOp>) returns (gone: bool, ghost run: Run)
    requires req.Valid()
    modifies req, req.backend
    ensures run.Valid() && run.ops == ops && run.a == req.backend.answers && run.supportsNotif == req.supportsNotif
    ensures run.views[0] == old(req.Now()) && run.views[|run.answers|] == req.Now() && gone == req.deleted
    ensures !gone ==> req.Valid() && |run.answers| == |ops|
    ensures gone <==> run.answers != [] && ops[|run.answers| - 1].DoRelease?
                      && run.answers[|run.answers| - 1] == Success
    ensures forall i :: 0 <= i < |run.answers| - 1 && ops[i].DoRelease? ==> run.answers[i] == RepostActive
    ensures Balanced(req.Now()) && req.backend.posted == old(req.backend.posted) + run.Posted(|run.answers|)
    ensures req.backend.checks == old(req.backend.checks) + run.Lookups(|run.answers|)
    ensures req.backend.releases + req.backend.refusals
         == old(req.backend.refusals) + run.Refused(|run.answers|) + if gone then 1 else 0
    ensures gone ==>
              var last := run.a.onRelease(old(req.backend.refusals) + run.Refused(|run.answers|));
              req.backend.releases == if last.IsError() then 0 else 1
  {
    hide StepOf, Balanced;
    gone := false;
    run := Run(req.backend.answers, req.supportsNotif, ops, [req.Now()], []);
    var i := 0;
    while i < |ops| && !gone
      invariant i <= |ops| && |run.answers| == i && run.Valid()
      invariant run.ops == ops && run.a == req.backend.answers && run.supportsNotif == req.supportsNotif
      invariant run.views[0] == old(req.Now()) && run.views[i] == req.Now() && gone == req.deleted
      invariant !gone ==> req.Valid()
    {
      var st := Perform(req, ops[i]);
      gone := ops[i].DoRelease? && st == Success;
      run := run.(views := run.views + [req.Now()], answers := run.answers + [st]);
      i := i + 1;
    }
    RunReleases(run, i);
    RunCalls(run, i);
    RunBalanced(run, i);
  }

  method Perform(req: XferReqH, op: ReqOp) returns (st: Status)
    requires req.Valid()
    modifies req, req.backend
    ensures StepOf(req.backend.answers, old(req.Now()), op, st, req.Now(), req.supportsNotif)
    ensures req.deleted <==> op.DoRelease? && st == Success
    ensures !req.deleted ==> req.Valid()
  {
    hide PostStep, StatusStep, ReleaseStep;
    match op {
      case DoPost(expired, extra) => st := req.Post(expired, extra);
      case DoStatus(expired) => st := req.GetStatus(expired);
      case DoRelease => st := req.Release();
    }
  }

  // A refused destructor: the release answers success, and the handle is never released.
  method IgnoredRefusal() returns (st: Status, req: XferReqH)
    ensures st == Success && req.deleted && req.backend.releases == 0 && req.backend.refusals == 1
  {
    var backend := new BackendReq(Answers(k => Success, k => Success, k => BackendError));
    req := new XferReqH(backend, false, None);
    st := req.Release();
  }
}
