/**
 The order in which a request meets the agent's backends. createXferReq walks a set ordered by pointer,
 makeXferReq a hash map or the list the caller passed, and each takes the first backend that serves both
 sides. Whether they take the same one depends on how many do.
 */
module BackendOrder {
  import opened Descriptors
  import opened Coverage
  import opened XferPipeline

  // An order in which a call goes through n backends.
  ghost predicate IsOrder(order: seq<nat>, n: nat) {
    && |order| == n && (forall i :: 0 <= i < n ==> order[i] < n)
    && forall e: nat :: e < n ==> e in order
  }

  function InOrder<T>(s: seq<T>, order: seq<nat>): (r: seq<T>)
    requires |order| == |s| && forall i :: 0 <= i < |s| ==> order[i] < |s|
    ensures |r| == |s| && forall i :: 0 <= i < |s| ==> r[i] == s[order[i]]
  {
    seq(|s|, i requires 0 <= i < |s| => s[order[i]])
  }

  // The backend whose prepXfer a request reaches when it meets the backends in this order.
  ghost function Choice(backends: seq<Backend>, order: seq<nat>, remoteKnown: bool, local: seq<BasicDesc>,
                        remote: seq<BasicDesc>, notif: bool)
    : (c: Option<nat>)
    requires IsOrder(order, |backends|)
    ensures c.Some? ==> c.value < |backends| && Serves(backends[c.value], local, remote)
  {
    var f := FirstServing(InOrder(backends, order), local, remote);
    if Matching(local, remote) && remoteKnown && f < |backends| && (notif ==> backends[order[f]].supportsNotif)
    then Some(order[f]) else None
  }

  // At most one backend has both lists registered.
  ghost predicate OneServes(backends: seq<Backend>, local: seq<BasicDesc>, remote: seq<BasicDesc>) {
    forall i, j :: 0 <= i < |backends| && 0 <= j < |backends| ==>
      Serves(backends[i], local, remote) && Serves(backends[j], local, remote) ==> i == j
  }

  ghost predicate NoneNotifies(backends: seq<Backend>, local: seq<BasicDesc>, remote: seq<BasicDesc>) {
    forall i :: 0 <= i < |backends| && Serves(backends[i], local, remote) ==> !backends[i].supportsNotif
  }

  // The order does not matter.
  ghost predicate OrderFree(backends: seq<Backend>, remoteKnown: bool, local: seq<BasicDesc>, remote: seq<BasicDesc>,
                            notif: bool)
  {
    || !Matching(local, remote) || !remoteKnown || OneServes(backends, local, remote)
    || (notif && NoneNotifies(backends, local, remote))
  }

  // The order that starts with backend g.
  function Starting(g: nat, n: nat): (order: seq<nat>)
    requires g < n
    ensures |order| == n && order[0] == g && forall i :: 0 <= i < n ==> order[i] < n
  {
    seq(n, i requires 0 <= i < n => if i == 0 then g else if i == g then 0 else i)
  }

  lemma StartingIsOrder(g: nat, n: nat)
    requires g < n
    ensures IsOrder(Starting(g, n), n)
  {
    var order := Starting(g, n);
    forall e: nat | e < n ensures e in order {
      assert order[if e == g then 0 else if e == 0 then g else e] == e;
    }
  }

  // Met first, a backend that serves the lists decides.
  lemma FirstDecides(backends: seq<Backend>, g: nat, local: seq<BasicDesc>, remote: seq<BasicDesc>, notif: bool)
    requires g < |backends| && Serves(backends[g], local, remote) && Matching(local, remote)
    ensures IsOrder(Starting(g, |backends|), |backends|)
    ensures Choice(backends, Starting(g, |backends|), true, local, remote, notif)
         == if notif && !backends[g].supportsNotif then None else Some(g)
  {
    hide Serves;
    StartingIsOrder(g, |backends|);
    FirstIs(InOrder(backends, Starting(g, |backends|)), local, remote, 0);
  }

  // When at most one backend serves the lists, every order finds it.
  lemma OneFound(backends: seq<Backend>, p: seq<nat>, q: seq<nat>, local: seq<BasicDesc>, remote: seq<BasicDesc>)
    requires IsOrder(p, |backends|) && IsOrder(q, |backends|) && OneServes(backends, local, remote)
    ensures var f := FirstServing(InOrder(backends, p), local, remote);
            var g := FirstServing(InOrder(backends, q), local, remote);
            (f == |backends| <==> g == |backends|) && (f < |backends| ==> p[f] == q[g])
  {
    hide Serves;
    Found(backends, p, q, local, remote);
    Found(backends, q, p, local, remote);
  }

  // What one order finds, another does not miss.
  lemma Found(backends: seq<Backend>, p: seq<nat>, q: seq<nat>, local: seq<BasicDesc>, remote: seq<BasicDesc>)
    requires IsOrder(p, |backends|) && IsOrder(q, |backends|)
    ensures FirstServing(InOrder(backends, p), local, remote) < |backends| ==>
              FirstServing(InOrder(backends, q), local, remote) < |backends|
  {
    hide Serves;
    var f := FirstServing(InOrder(backends, p), local, remote);
    if f < |backends| {
      assert p[f] in q;
      var i :| 0 <= i < |q| && q[i] == p[f];
      assert Serves(InOrder(backends, q)[i], local, remote);
    }
  }

  /**
   Exactly when the order in which a request meets the backends does not matter, compared with any given
   one: when the lists do not match, or the remote is unknown, or at most one backend has both lists
   registered, or a notification is asked for that none of them can send.
   */
  lemma ChoicesAgreeIff(backends: seq<Backend>, p: seq<nat>, remoteKnown: bool, local: seq<BasicDesc>,
                        remote: seq<BasicDesc>, notif: bool)
    requires IsOrder(p, |backends|)
    ensures OrderFree(backends, remoteKnown, local, remote, notif) <==>
            forall q :: IsOrder(q, |backends|) ==>
              Choice(backends, q, remoteKnown, local, remote, notif)
              == Choice(backends, p, remoteKnown, local, remote, notif)
  {
    hide Serves, IsOrder;
    if OrderFree(backends, remoteKnown, local, remote, notif) {
      forall q | IsOrder(q, |backends|)
        ensures Choice(backends, q, remoteKnown, local, remote, notif)
             == Choice(backends, p, remoteKnown, local, remote, notif)
      {
        SameChoice(backends, p, q, remoteKnown, local, remote, notif);
      }
    } else {
      var g, h :| 0 <= g < |backends| && 0 <= h < |backends| && g != h
                  && Serves(backends[g], local, remote) && Serves(backends[h], local, remote);
      FirstDecides(backends, g, local, remote, notif);
      FirstDecides(backends, h, local, remote, notif);
      if notif {
        var x :| 0 <= x < |backends| && Serves(backends[x], local, remote) && backends[x].supportsNotif;
        FirstDecides(backends, x, local, remote, notif);
      }
    }
  }

  lemma SameChoice(backends: seq<Backend>, p: seq<nat>, q: seq<nat>, remoteKnown: bool, local: seq<BasicDesc>,
                   remote: seq<BasicDesc>, notif: bool)
    requires IsOrder(p, |backends|) && IsOrder(q, |backends|)
    requires OrderFree(backends, remoteKnown, local, remote, notif)
    ensures Choice(backends, q, remoteKnown, local, remote, notif)
         == Choice(backends, p, remoteKnown, local, remote, notif)
  {
    hide Serves;
    if OneServes(backends, local, remote) { OneFound(backends, p, q, local, remote); }
  }

  /** Two backends that both serve a list, of which the second can notify: with and without a notification. */
  lemma TwoBackendsDisagree()
    ensures var d := BasicDesc(0, 1, 0);
            var base := [SectionDesc(d, 0, [])];
            var two := [Backend(Some(base), Some(base), false), Backend(Some(base), Some(base), true)];
            && AllRegistered(two) && IsOrder([0, 1], 2) && IsOrder([1, 0], 2)
            && Choice(two, [0, 1], true, [d], [d], true) == None && Choice(two, [1, 0], true, [d], [d], true) == Some(1)
            && Choice(two, [0, 1], true, [d], [d], false) == Some(0)
            && Choice(two, [1, 0], true, [d], [d], false) == Some(1)
  {
    var d := BasicDesc(0, 1, 0);
    var base := [SectionDesc(d, 0, [])];
    var two := [Backend(Some(base), Some(base), false), Backend(Some(base), Some(base), true)];
    assert Covers(base[0].basic, d);
    assert Covered(base, [d][0]);
    assert Serves(two[0], [d], [d]) && Serves(two[1], [d], [d]);
    assert Starting(0, 2) == [0, 1] && Starting(1, 2) == [1, 0];
    FirstDecides(two, 0, [d], [d], true);
    FirstDecides(two, 1, [d], [d], true);
    FirstDecides(two, 0, [d], [d], false);
    FirstDecides(two, 1, [d], [d], false);
  }
}
