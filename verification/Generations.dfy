/**
 Remote registrations and the handles made from them. An agent name maps to one section object, the
 current generation of that remote's registration. Prepared lists and requests hold a weak reference
 to the section they were made from, which expires when the section leaves the map.

 The agent's own name is left aside: its section is not loaded or invalidated like a remote's.
 */
module Generations {
  import opened Descriptors
  import opened SectionList
  import opened MetadataBlob
  import opened RemoteSections
  import opened RemoteOutcomes
  import opened RemoteLoading

  type Name = string
  type Gen = nat
  type Handle = nat

  // Sections by the list they are in.
  type Used = map<Key, set<SectionDesc>>

  // What a handle was made from: the remote, its generation then, and for each list the handle was prepared
  // from, which is one per backend, the sections its descriptors carry the metadata of.
  datatype Ref = Ref(agent: Name, gen: Gen, used: Used)

  // The sections are all in the lists.
  predicate HeldBy(used: Used, m: Remote) {
    forall k :: k in used ==> used[k] <= Elems(At(m, k))
  }

  datatype State = State(
    remote: map<Name, Gen>,                 // remoteSections_
    loaded: map<Gen, Remote>,               // the living sections
    next: Gen,                              // generations below this one have been used
    dlists: map<Handle, Ref>, requests: map<Handle, Ref>)
  {
    // weak_ptr::expired
    predicate Expired(ref: Ref) {
      ref.gen !in remote.Values
    }

    // The section of a remote holds the sections now.
    predicate Holds(name: Name, used: Used) {
      name in remote && remote[name] in loaded && HeldBy(used, loaded[remote[name]])
    }
  }

  const INITIAL := State(map[], map[], 0, map[], map[])

  // A metadata blob as it is read, the backends it meets and what they answer.
  datatype Blobs = Blobs(known: Backends, got: ReadEntries, loaders: Loaders)

  datatype Step =
    | Load(name: Name, blob: Blobs)                                   // loadRemoteSections
    | Invalidate(name: Name)                                          // invalidateRemoteMDLocked
    | Prep(h: Handle, name: Name, used: Used)                         // prepXferDlist, for every backend
    | Make(h: Handle, dlist: Handle, key: Key, secs: set<SectionDesc>) // makeXferReq, for one of them
    | Create(h: Handle, name: Name, key: Key, secs: set<SectionDesc>) // createXferReq, for one backend
    | ReleaseRequest(h: Handle)

  // The section of a remote, found or created.
  function Emplaced(s: State, name: Name): State {
    if name in s.remote then s
    else s.(remote := s.remote[name := s.next], loaded := s.loaded[s.next := map[]], next := s.next + 1)
  }

  function Erased(s: State, name: Name): State {
    if name in s.remote then s.(remote := s.remote - {name}, loaded := s.loaded - {s.remote[name]}) else s
  }

  // What loading a blob makes of the section of a remote.
  function Loading(s: State, name: Name, blob: Blobs): BlobOutcome {
    var e := Emplaced(s, name);
    var g := e.remote[name];
    LoadBlob(blob.known, if g in e.loaded then e.loaded[g] else map[], blob.got, blob.loaders)
  }

  // Handles are made only from what the section holds at that time.
  predicate Enabled(s: State, step: Step) {
    match step
    case Load(name, blob) => Loading(s, name, blob) != OutOfRange
    case Prep(h, name, used) => h !in s.dlists && s.Holds(name, used)
    case Make(h, dlist, key, secs) =>
      && h !in s.requests && dlist in s.dlists && !s.Expired(s.dlists[dlist])
      && key in s.dlists[dlist].used && secs <= s.dlists[dlist].used[key]
    case Create(h, name, key, secs) => h !in s.requests && s.Holds(name, map[key := secs])
    case _ => true
  }

  function Apply(s: State, step: Step): State
    requires Enabled(s, step)
  {
    match step
    case Load(name, blob) =>
      var e := Emplaced(s, name);
      (match Loading(s, name, blob)
       case Taken(m) => e.(loaded := e.loaded[e.remote[name] := m])
       case Refuses(_) => Erased(e, name))
    case Invalidate(name) => Erased(s, name)
    case Prep(h, name, used) => s.(dlists := s.dlists[h := Ref(name, s.remote[name], used)])
    case Make(h, dlist, key, secs) => s.(requests := s.requests[h := s.dlists[dlist].(used := map[key := secs])])
    case Create(h, name, key, secs) => s.(requests := s.requests[h := Ref(name, s.remote[name], map[key := secs])])
    case ReleaseRequest(h) => s.(requests := s.requests - {h})
  }

  // A post reaches the backend exactly when the reference has not expired.
  predicate Posts(s: State, h: Handle) {
    h in s.requests && !s.Expired(s.requests[h])
  }

  // ---- Loading keeps what is there ----

  // Every list of m is part of the list of the same key of n.
  ghost predicate Grows(m: Remote, n: Remote) {
    forall k :: Elems(At(m, k)) <= Elems(At(n, k))
  }

  lemma {:induction false} AddAllGrows(t: MemType, list: seq<SectionDesc>, descs: seq<BlobDesc>, load: Loader)
    requires AddAll(t, list, descs, load).Done?
    ensures Elems(list) <= Elems(AddAll(t, list, descs, load).value)
    decreases |descs|
  {
    hide Insert, Elems;
    if descs != [] {
      var one := AddOne(t, list, descs[0], load);
      if load(descs[0]).Loaded? {
        InsertElems(list, Normalize(t, SectionDesc(descs[0].basic, load(descs[0]).meta, descs[0].info)));
      }
      AddAllGrows(t, one.value, descs[1..], load);
    }
  }

  /** A load that succeeds keeps every section of every list, with its metadata. */
  lemma {:induction false} LoadKeeps(known: Backends, m: Remote, got: seq<ReadEntry>, loaders: Loaders)
    requires LoadRead(known, m, got, loaders).Taken?
    ensures Grows(m, LoadRead(known, m, got, loaders).value)
    decreases |got|
  {
    hide AddAll, Elems;
    if got != [] {
      var e := got[0];
      if e.backend !in known {
        LoadKeeps(known, m, got[1..], loaders);
      } else {
        var key := (e.t.t, e.backend);
        var one := AddAll(e.t.t, At(m, key), e.descs, loaders(key));
        AddAllGrows(e.t.t, At(m, key), e.descs, loaders(key));
        LoadKeeps(known, m[key := one.value], got[1..], loaders);
        forall k ensures Elems(At(m, k)) <= Elems(At(m[key := one.value], k)) {
          assert k != key ==> At(m, k) == At(m[key := one.value], k);
        }
      }
    }
  }

  lemma TakenGrows(s: State, name: Name, blob: Blobs)
    requires Loading(s, name, blob).Taken?
    ensures var e := Emplaced(s, name);
            e.remote[name] in e.loaded ==> Grows(e.loaded[e.remote[name]], Loading(s, name, blob).value)
  {
    hide LoadRead, Grows;
    var e := Emplaced(s, name);
    if e.remote[name] in e.loaded {
      LoadKeeps(blob.known, e.loaded[e.remote[name]], blob.got.entries, blob.loaders);
    }
  }

  // ---- Invariant ----

  ghost predicate RefOk(s: State, ref: Ref) {
    && ref.gen < s.next
    && (!s.Expired(ref) ==>
          && ref.agent in s.remote && s.remote[ref.agent] == ref.gen
          && ref.gen in s.loaded && HeldBy(ref.used, s.loaded[ref.gen]))
  }

  // Each generation belongs to one name, and living sections are those in the map.
  ghost predicate SectionsOk(s: State) {
    && (forall a :: a in s.remote ==> s.remote[a] < s.next && s.remote[a] in s.loaded)
    && (forall a, b :: a in s.remote && b in s.remote && s.remote[a] == s.remote[b] ==> a == b)
    && (forall g :: g in s.loaded ==> g < s.next)
  }

  ghost predicate Inv(s: State) {
    && SectionsOk(s)
    && (forall h :: h in s.dlists ==> RefOk(s, s.dlists[h]))
    && (forall h :: h in s.requests ==> RefOk(s, s.requests[h]))
  }

  lemma EmplacedKeeps(s: State, name: Name, ref: Ref)
    requires SectionsOk(s)
    ensures SectionsOk(Emplaced(s, name))
    ensures RefOk(s, ref) ==> RefOk(Emplaced(s, name), ref)
    ensures ref.gen < s.next && s.Expired(ref) ==> Emplaced(s, name).Expired(ref)
  {
    var e := Emplaced(s, name);
    if name !in s.remote {
      forall g | g in e.remote.Values ensures g in s.remote.Values || g == s.next {
        var a :| a in e.remote && e.remote[a] == g;
        if a != name { assert s.remote[a] == g; }
      }
      if !s.Expired(ref) {
        var a :| a in s.remote && s.remote[a] == ref.gen;
        assert e.remote[a] == ref.gen;
      }
    }
  }

  lemma ErasedKeeps(s: State, name: Name, ref: Ref)
    requires SectionsOk(s)
    ensures SectionsOk(Erased(s, name))
    ensures RefOk(s, ref) ==> RefOk(Erased(s, name), ref)
    ensures s.Expired(ref) ==> Erased(s, name).Expired(ref)
    ensures ref.agent == name && RefOk(s, ref) ==> Erased(s, name).Expired(ref)
  {
    var e := Erased(s, name);
    if name in s.remote {
      forall a | a in e.remote ensures a in s.remote && e.remote[a] == s.remote[a] && a != name { }
      if !e.Expired(ref) {
        var a :| a in e.remote && e.remote[a] == ref.gen;
        assert s.remote[a] == ref.gen;
      }
    }
  }

  // A grown section in the place of the section of a name.
  lemma GrownKeeps(s: State, name: Name, n: Remote, ref: Ref)
    requires SectionsOk(s) && name in s.remote && Grows(s.loaded[s.remote[name]], n)
    ensures var e := s.(loaded := s.loaded[s.remote[name] := n]);
            SectionsOk(e) && (RefOk(s, ref) ==> RefOk(e, ref)) && e.Expired(ref) == s.Expired(ref)
  {
    hide Elems, At;
    assert forall k :: k in ref.used ==> Elems(At(s.loaded[s.remote[name]], k)) <= Elems(At(n, k));
  }

  lemma LoadKeepsRef(s: State, name: Name, blob: Blobs, ref: Ref)
    requires SectionsOk(s) && Enabled(s, Load(name, blob))
    ensures var s' := Apply(s, Load(name, blob));
            && SectionsOk(s') && (RefOk(s, ref) ==> RefOk(s', ref))
            && (ref.gen < s.next && s.Expired(ref) ==> s'.Expired(ref))
  {
    hide SectionsOk, RefOk, Grows, LoadBlob;
    var e := Emplaced(s, name);
    EmplacedKeeps(s, name, ref);
    assert name in e.remote && e.remote[name] in e.loaded by { EmplacedLives(s, name); }
    if Loading(s, name, blob).Taken? {
      TakenGrows(s, name, blob);
      GrownKeeps(e, name, Loading(s, name, blob).value, ref);
    } else {
      ErasedKeeps(e, name, ref);
    }
  }

  lemma EmplacedLives(s: State, name: Name)
    requires SectionsOk(s)
    ensures name in Emplaced(s, name).remote && Emplaced(s, name).remote[name] in Emplaced(s, name).loaded
  {
  }

  /** What any step does to any reference ever made: it stays sound, and once expired it stays expired. */
  lemma RefKept(s: State, step: Step, ref: Ref)
    requires SectionsOk(s) && Enabled(s, step) && RefOk(s, ref)
    ensures SectionsOk(Apply(s, step)) && RefOk(Apply(s, step), ref)
    ensures s.Expired(ref) ==> Apply(s, step).Expired(ref)
  {
    hide LoadBlob, Elems, At;
    match step {
      case Load(name, blob) => LoadKeepsRef(s, name, blob, ref);
      case Invalidate(name) => ErasedKeeps(s, name, ref);
      case _ =>
    }
  }

  lemma SectionsKept(s: State, step: Step)
    requires SectionsOk(s) && Enabled(s, step)
    ensures SectionsOk(Apply(s, step))
  {
    hide LoadBlob;
    match step {
      case Load(name, blob) => LoadKeepsRef(s, name, blob, Ref(name, 0, map[]));
      case Invalidate(name) => ErasedKeeps(s, name, Ref(name, 0, map[]));
      case _ =>
    }
  }

  // A reference made now from the current section of a name.
  lemma NewRefOk(s: State, name: Name, used: Used)
    requires SectionsOk(s) && s.Holds(name, used)
    ensures RefOk(s, Ref(name, s.remote[name], used))
  {
  }

  lemma InvKept(s: State, step: Step)
    requires Inv(s) && Enabled(s, step)
    ensures Inv(Apply(s, step))
  {
    hide RefOk, SectionsOk, LoadBlob, Elems, At;
    var s' := Apply(s, step);
    SectionsKept(s, step);
    forall h | h in s'.dlists ensures RefOk(s', s'.dlists[h]) {
      if h in s.dlists && s'.dlists[h] == s.dlists[h] { RefKept(s, step, s.dlists[h]); } else { MadeOk(s, step); }
    }
    forall h | h in s'.requests ensures RefOk(s', s'.requests[h]) {
      if h in s.requests && s'.requests[h] == s.requests[h] {
        RefKept(s, step, s.requests[h]);
      } else {
        MadeOk(s, step);
      }
    }
  }

  lemma MadeOk(s: State, step: Step)
    requires Inv(s) && Enabled(s, step)
    ensures step.Prep? ==> RefOk(Apply(s, step), Apply(s, step).dlists[step.h])
    ensures step.Make? || step.Create? ==> RefOk(Apply(s, step), Apply(s, step).requests[step.h])
  {
    hide Elems, At, LoadBlob;
    if step.Prep? { NewRefOk(s, step.name, step.used); }
    if step.Create? { NewRefOk(s, step.name, map[step.key := step.secs]); }
    if step.Make? { assert RefOk(s, s.dlists[step.dlist]); }
  }

  // ---- Whole runs ----

  ghost predicate Reachable(s: State, steps: seq<Step>)
    decreases |steps|
  {
    if steps == [] then s == INITIAL
    else exists r :: ReachedBefore(r, steps) && Enabled(r, steps[|steps| - 1]) && Apply(r, steps[|steps| - 1]) == s
  }

  ghost predicate ReachedBefore(r: State, steps: seq<Step>)
    requires steps != []
    decreases |steps|, 0
  {
    Reachable(r, steps[..|steps| - 1])
  }

  lemma {:induction false} ReachableInv(s: State, steps: seq<Step>)
    requires Reachable(s, steps)
    ensures Inv(s)
    decreases |steps|
  {
    if steps != [] {
      var n := |steps| - 1;
      var r :| ReachedBefore(r, steps) && Enabled(r, steps[n]) && Apply(r, steps[n]) == s;
      ReachableInv(r, steps[..n]);
      InvKept(r, steps[n]);
    }
  }

  /**
   Generation safety: in every reachable state, a request that would reach the backend was made from
   the section its remote still has, and all target metadata it points to is still loaded there.
   */
  lemma PostIsCurrent(s: State, steps: seq<Step>, h: Handle)
    requires Reachable(s, steps) && Posts(s, h)
    ensures var ref := s.requests[h];
            && ref.agent in s.remote && s.remote[ref.agent] == ref.gen
            && ref.gen in s.loaded && HeldBy(ref.used, s.loaded[ref.gen])
  {
    ReachableInv(s, steps);
    assert RefOk(s, s.requests[h]);
  }

  // s' is reached from s by the steps.
  ghost predicate Leads(s: State, steps: seq<Step>, s': State)
    decreases |steps|
  {
    if steps == [] then s == s' else Enabled(s, steps[0]) && Leads(Apply(s, steps[0]), steps[1..], s')
  }

  lemma {:induction false} ExpiredForever(s: State, ref: Ref, steps: seq<Step>, s': State)
    requires SectionsOk(s) && RefOk(s, ref) && s.Expired(ref) && Leads(s, steps, s')
    ensures s'.Expired(ref)
    decreases |steps|
  {
    if steps != [] {
      RefKept(s, steps[0], ref);
      ExpiredForever(Apply(s, steps[0]), ref, steps[1..], s');
    }
  }

  // The step takes the section of a remote out of the map.
  predicate Drops(s: State, step: Step) {
    step.Invalidate? || (step.Load? && Loading(s, step.name, step.blob).Refuses?)
  }

  /**
   After an invalidation, whether asked for or caused by a failed load, no request made for that remote
   before can ever reach the backend again, however often the same name is loaded later. The same goes
   for lists prepared from it.
   */
  lemma InvalidatedNeverPosts(s: State, past: seq<Step>, step: Step, future: seq<Step>, s': State, h: Handle)
    requires Reachable(s, past) && Enabled(s, step) && Leads(Apply(s, step), future, s')
    requires Drops(s, step)
    ensures h in s.requests && s.requests[h].agent == step.name ==> s'.Expired(s.requests[h])
    ensures h in s.dlists && s.dlists[h].agent == step.name ==> s'.Expired(s.dlists[h])
  {
    hide Reachable, Leads, RefOk, SectionsOk, LoadBlob;
    ReachableInv(s, past);
    SectionsKept(s, step);
    if h in s.requests && s.requests[h].agent == step.name {
      DiesNow(s, step, s.requests[h]);
      ExpiredForever(Apply(s, step), s.requests[h], future, s');
    }
    if h in s.dlists && s.dlists[h].agent == step.name {
      DiesNow(s, step, s.dlists[h]);
      ExpiredForever(Apply(s, step), s.dlists[h], future, s');
    }
  }

  lemma DiesNow(s: State, step: Step, ref: Ref)
    requires Drops(s, step)
    requires SectionsOk(s) && Enabled(s, step) && RefOk(s, ref) && ref.agent == step.name
    ensures Apply(s, step).Expired(ref) && RefOk(Apply(s, step), ref)
  {
    RefKept(s, step, ref);
    if step.Invalidate? {
      ErasedKeeps(s, step.name, ref);
    } else {
      EmplacedKeeps(s, step.name, ref);
      ErasedKeeps(Emplaced(s, step.name), step.name, ref);
    }
  }

  /**
   A refresh merges: loading a known remote again keeps every section object, every section of every list
   with its metadata, and which requests can post.
   */
  lemma ReloadKeepsHandles(s: State, past: seq<Step>, name: Name, blob: Blobs, h: Handle)
    requires Reachable(s, past) && name in s.remote && Loading(s, name, blob).Taken?
    ensures var s' := Apply(s, Load(name, blob));
            && s'.remote == s.remote
            && (Posts(s, h) <==> Posts(s', h))
            && (forall g :: g in s.loaded ==> g in s'.loaded && Grows(s.loaded[g], s'.loaded[g]))
  {
    hide LoadBlob, Elems, At, Reachable;
    ReachableInv(s, past);
    TakenGrows(s, name, blob);
  }

  // A living section is one that lived before, a new empty one, or what a load made.
  lemma ApplyLoads(s: State, step: Step, g: Gen)
    requires SectionsOk(s) && Enabled(s, step) && g in Apply(s, step).loaded
    ensures || (g in s.loaded && Apply(s, step).loaded[g] == s.loaded[g])
            || (step.Load? && g == Emplaced(s, step.name).remote[step.name]
                && Loading(s, step.name, step.blob) == Taken(Apply(s, step).loaded[g]))
  {
    hide LoadBlob, Loading;
    match step {
      case Load(name, blob) =>
        var e := Emplaced(s, name);
        if Loading(s, name, blob).Taken? {
          if g != e.remote[name] { assert g in e.loaded && Apply(s, step).loaded[g] == e.loaded[g]; }
        } else {
          assert g in Erased(e, name).loaded && Apply(s, step) == Erased(e, name);
        }
      case Invalidate(name) => assert g in s.loaded;
      case _ => assert Apply(s, step).loaded == s.loaded;
    }
  }

  // Living sections hold every range once.
  lemma {:induction false} LoadedStrict(s: State, steps: seq<Step>, g: Gen)
    requires Reachable(s, steps) && g in s.loaded
    ensures StrictLists(s.loaded[g])
    decreases |steps|
  {
    hide LoadBlob, StrictLists, GathersAll, Fits, Tame;
    var n := |steps| - 1;
    var r :| ReachedBefore(r, steps) && Enabled(r, steps[n]) && Apply(r, steps[n]) == s;
    ReachableInv(r, steps[..n]);
    ApplyLoads(r, steps[n], g);
    if g in r.loaded && s.loaded[g] == r.loaded[g] {
      LoadedStrict(r, steps[..n], g);
    } else {
      var Load(name, blob) := steps[n];
      var e := Emplaced(r, name);
      var m := e.loaded[e.remote[name]];
      if name in r.remote { LoadedStrict(r, steps[..n], r.remote[name]); } else { NoneStrict(); }
      TakenIff(blob.known, m, blob.got, blob.loaders);
      GathersStrict(blob.known, m, Plain(blob.got.entries), blob.loaders, s.loaded[g]);
    }
  }

  lemma NoneStrict()
    ensures StrictLists(map[])
  {
  }

  /**
   What a load brings, in every reachable state: the remote has a living section, and every descriptor of
   a known backend in the blob is in the list of its memory type and backend, with its own metadata.
   */
  lemma LoadBrings(s: State, past: seq<Step>, name: Name, blob: Blobs, i: nat, j: nat)
    requires Reachable(s, past) && Loading(s, name, blob).Taken?
    requires i < |AllRead(blob.got)| && AllRead(blob.got)[i].backend in blob.known
             && j < |AllRead(blob.got)[i].descs|
    ensures var s' := Apply(s, Load(name, blob));
            var e := AllRead(blob.got)[i];
            && name in s'.remote && s'.remote[name] in s'.loaded && e.t.Known?
            && HoldsDesc(e.t.t, At(s'.loaded[s'.remote[name]], (e.t.t, e.backend)), e.descs[j])
  {
    hide LoadBlob, StrictLists, HoldsDesc, Reachable;
    ReachableInv(s, past);
    var e := Emplaced(s, name);
    var m := e.loaded[e.remote[name]];
    if name in s.remote { LoadedStrict(s, past, s.remote[name]); } else { NoneStrict(); }
    TakenIsThere(blob.known, m, blob.got, blob.loaders, i, j);
  }

  /** A new request can post, and goes on to be able to until its remote is dropped or it is released. */
  lemma {:induction false} PostsUntilDropped(s: State, past: seq<Step>, h: Handle, steps: seq<Step>, s': State)
    requires Reachable(s, past) && Posts(s, h) && Leads(s, steps, s')
    requires Undisturbed(s, h, steps)
    ensures Posts(s', h) && s'.requests[h] == s.requests[h]
    decreases |steps|
  {
    hide LoadBlob, RefOk;
    if steps != [] {
      var t := Apply(s, steps[0]);
      ReachableInv(s, past);
      assert RefOk(s, s.requests[h]);
      KeepsPosting(s, steps[0], h);
      assert (past + [steps[0]])[..|past|] == past;
      assert ReachedBefore(s, past + [steps[0]]);
      PostsUntilDropped(t, past + [steps[0]], h, steps[1..], s');
    }
  }

  // No step releases the request or drops the remote it was made for.
  ghost predicate Undisturbed(s: State, h: Handle, steps: seq<Step>)
    requires h in s.requests
    decreases |steps|
  {
    steps == [] ||
    (&& Enabled(s, steps[0]) && steps[0] != ReleaseRequest(h)
     && !(Drops(s, steps[0]) && steps[0].name == s.requests[h].agent)
     && (h in Apply(s, steps[0]).requests ==> Undisturbed(Apply(s, steps[0]), h, steps[1..])))
  }

  lemma KeepsPosting(s: State, step: Step, h: Handle)
    requires SectionsOk(s) && Enabled(s, step) && Posts(s, h) && RefOk(s, s.requests[h])
    requires step != ReleaseRequest(h) && !(Drops(s, step) && step.name == s.requests[h].agent)
    ensures Posts(Apply(s, step), h) && Apply(s, step).requests[h] == s.requests[h]
  {
    hide LoadBlob;
    var s' := Apply(s, step);
    var agent := s.requests[h].agent;
    assert agent in s'.remote && s'.remote[agent] == s.remote[agent];
  }

  /** Making a request lets it post; releasing it ends that. */
  lemma MadeThenReleased(s: State, past: seq<Step>, step: Step)
    requires Reachable(s, past) && Enabled(s, step)
    ensures step.Make? || step.Create? ==> Posts(Apply(s, step), step.h)
    ensures step.ReleaseRequest? ==> !Posts(Apply(s, step), step.h)
  {
    hide LoadBlob;
    ReachableInv(s, past);
    if step.Create? { assert s.remote[step.name] in s.remote.Values; }
  }

  lemma Extend(s: State, steps: seq<Step>, step: Step) returns (s': State, steps': seq<Step>)
    requires Reachable(s, steps) && Enabled(s, step)
    ensures s' == Apply(s, step) && steps' == steps + [step] && Reachable(s', steps')
  {
    s', steps' := Apply(s, step), steps + [step];
    assert steps'[..|steps|] == steps;
    assert ReachedBefore(s, steps');
  }

  /**
   One life of a remote, from the beginning: a list is prepared and a request made of it, which can post; the
   remote is invalidated and loaded again, and the old request stays expired while a new one can post until
   it is released.
   */
  lemma HandleLife(name: Name, key: Key, loaders: Loaders)
    returns (s1: State, s2: State, s3: State, past: seq<Step>)
    ensures Reachable(s3, past)
    ensures Posts(s1, 1) && !Posts(s2, 1) && 1 in s2.requests && Posts(s2, 2) && !Posts(s3, 2)
    ensures |past| == 7 && past[5].Create? && past[6] == ReleaseRequest(2)
  {
    hide Reachable;
    var blob := Blobs(map[], Entries([]), loaders);
    var used: Used := map[key := {}];
    Start();
    s1, past := Extend(INITIAL, [], Load(name, blob));
    s1, past := Extend(s1, past, Prep(0, name, used));
    s1, past := Extend(s1, past, Make(1, 0, key, {}));
    assert s1.remote[name] in s1.remote.Values;
    s2, past := Extend(s1, past, Invalidate(name));
    s2, past := Extend(s2, past, Load(name, blob));
    assert s2.remote == map[name := 1];
    s2, past := Extend(s2, past, Create(2, name, key, {}));
    assert s2.remote[name] in s2.remote.Values;
    s3, past := Extend(s2, past, ReleaseRequest(2));
  }

  lemma Start()
    ensures Reachable(INITIAL, [])
  {
  }
}
