/**
 What loading remote metadata comes to, whatever the backends answer: which descriptor fails first and
 with what status, and otherwise what every list holds.
 */
module RemoteOutcomes {
  import opened Descriptors
  import opened Coverage
  import opened SectionList
  import opened MetadataBlob
  import opened RemoteSections

  // ---- One list ----

  function Range(t: MemType, d: BlobDesc): BasicDesc {
    NormalizeQuery(t, d.basic)
  }

  ghost predicate HasRange(list: seq<SectionDesc>, q: BasicDesc) {
    exists x :: x in list && x.basic == q
  }

  ghost predicate HasOther(list: seq<SectionDesc>, q: BasicDesc, info: Blob) {
    exists x :: x in list && x.basic == q && x.blob != info
  }

  // Descriptor i has the range of a section or of an earlier descriptor.
  ghost predicate Seen(t: MemType, list: seq<SectionDesc>, descs: seq<BlobDesc>, i: nat)
    requires i < |descs|
  {
    HasRange(list, Range(t, descs[i])) || exists j :: 0 <= j < i && Range(t, descs[j]) == Range(t, descs[i])
  }

  // It comes with other metadata than a section or an earlier descriptor of its range.
  ghost predicate Clashes(t: MemType, list: seq<SectionDesc>, descs: seq<BlobDesc>, i: nat)
    requires i < |descs|
  {
    || HasOther(list, Range(t, descs[i]), descs[i].info)
    || exists j :: 0 <= j < i && Range(t, descs[j]) == Range(t, descs[i]) && descs[j].info != descs[i].info
  }

  // It clashes, or it is new and the backend refuses it.
  ghost predicate Fails(t: MemType, list: seq<SectionDesc>, descs: seq<BlobDesc>, load: Loader, i: nat)
    requires i < |descs|
  {
    Clashes(t, list, descs, i) || (!Seen(t, list, descs, i) && load(descs[i]).Refused?)
  }

  ghost function StatusOf(t: MemType, list: seq<SectionDesc>, descs: seq<BlobDesc>, load: Loader, i: nat): Failure
    requires i < |descs| && Fails(t, list, descs, load, i)
  {
    if Clashes(t, list, descs, i) then NotAllowed else load(descs[i]).st
  }

  ghost predicate NoneFails(t: MemType, list: seq<SectionDesc>, descs: seq<BlobDesc>, load: Loader) {
    forall i :: 0 <= i < |descs| ==> !Fails(t, list, descs, load, i)
  }

  // The section of a descriptor that the backend loads.
  function NewSection(t: MemType, d: BlobDesc, load: Loader): SectionDesc
    requires load(d).Loaded?
  {
    SectionDesc(Range(t, d), load(d).meta, d.info)
  }

  // A section of the new list is an old one, or what the backend loaded for a new descriptor.
  ghost predicate ComesFrom(t: MemType, list: seq<SectionDesc>, descs: seq<BlobDesc>, load: Loader, x: SectionDesc) {
    || x in list
    || exists i :: 0 <= i < |descs| && !Seen(t, list, descs, i) && load(descs[i]).Loaded?
                   && x == NewSection(t, descs[i], load)
  }

  // The old sections and the new descriptors, each range once, and nothing else.
  ghost predicate Gathers(t: MemType, list: seq<SectionDesc>, descs: seq<BlobDesc>, load: Loader, r: seq<SectionDesc>) {
    && Strict(r) && (forall x :: x in list ==> x in r)
    && (forall i :: 0 <= i < |descs| ==> HoldsDesc(t, r, descs[i]))
    && forall x :: x in r ==> ComesFrom(t, list, descs, load, x)
  }

  // The list has the descriptor's range with the descriptor's metadata.
  ghost predicate HoldsDesc(t: MemType, r: seq<SectionDesc>, d: BlobDesc) {
    exists x :: x in r && x.basic == Range(t, d) && x.blob == d.info
  }

  /** What loading one descriptor does to a list, whatever the backend answers. */
  lemma AddOneOutcome(t: MemType, list: seq<SectionDesc>, d: BlobDesc, load: Loader)
    requires Strict(list)
    ensures HasOther(list, Range(t, d), d.info) ==> AddOne(t, list, d, load) == Error(NotAllowed)
    ensures HasRange(list, Range(t, d)) && !HasOther(list, Range(t, d), d.info) ==>
              AddOne(t, list, d, load) == Done(list) && HoldsDesc(t, list, d)
    ensures !HasRange(list, Range(t, d)) && load(d).Refused? ==> AddOne(t, list, d, load) == Error(load(d).st)
    ensures !HasRange(list, Range(t, d)) && load(d).Loaded? ==>
              var one := AddOne(t, list, d, load);
              one.Done? && Strict(one.value) && Elems(one.value) == Elems(list) + {NewSection(t, d, load)}
  {
    hide UpperBound, Insert, Strict;
    var q := Range(t, d);
    if x :| x in list && x.basic == q {
      var i :| 0 <= i < |list| && list[i] == x;
      FoundAtLowerBound(list, q, i);
      forall y | y in list && y.basic == q ensures y == x {
        var j :| 0 <= j < |list| && list[j] == y;
        FoundAtLowerBound(list, q, j);
      }
    } else if load(d).Loaded? {
      var x := NewSection(t, d, load);
      assert Normalize(t, SectionDesc(d.basic, load(d).meta, d.info)) == x;
      StrictInsert(list, x);
      InsertElems(list, x);
    }
  }

  // One descriptor behind others that gathered to r.
  lemma GatherNext(t: MemType, list: seq<SectionDesc>, descs: seq<BlobDesc>, load: Loader, n: nat, r: seq<SectionDesc>)
    requires n < |descs| && Gathers(t, list, descs[..n], load, r)
    ensures HasOther(r, Range(t, descs[n]), descs[n].info) <==> Clashes(t, list, descs, n)
    ensures HasRange(r, Range(t, descs[n])) <==> Seen(t, list, descs, n)
  {
    hide Strict;
    var q, info, before := Range(t, descs[n]), descs[n].info, descs[..n];
    forall x | x in r && x !in list
      ensures exists j :: 0 <= j < n && x.basic == Range(t, descs[j]) && x.blob == descs[j].info
    {
      assert ComesFrom(t, list, before, load, x);
      var j :| 0 <= j < n && !Seen(t, list, before, j) && load(before[j]).Loaded?
               && x == NewSection(t, before[j], load);
      assert before[j] == descs[j];
    }
    forall j | 0 <= j < n && Range(t, descs[j]) == q
      ensures exists x :: x in r && x.basic == q && x.blob == descs[j].info
    {
      assert HoldsDesc(t, r, before[j]);
    }
  }

  lemma SeenBefore(t: MemType, list: seq<SectionDesc>, descs: seq<BlobDesc>, load: Loader, n: nat, i: nat)
    requires i < n <= |descs|
    ensures Seen(t, list, descs[..n], i) <==> Seen(t, list, descs, i)
    ensures Clashes(t, list, descs[..n], i) <==> Clashes(t, list, descs, i)
    ensures Fails(t, list, descs[..n], load, i) <==> Fails(t, list, descs, load, i)
  {
    assert forall j :: 0 <= j < n ==> descs[..n][j] == descs[j];
  }

  // The list after one more descriptor.
  lemma GatherStep(t: MemType, list: seq<SectionDesc>, descs: seq<BlobDesc>, load: Loader, n: nat, r: seq<SectionDesc>,
                   r': seq<SectionDesc>)
    requires n < |descs| && Gathers(t, list, descs[..n], load, r) && Strict(r') && (forall x :: x in r ==> x in r')
    requires HoldsDesc(t, r', descs[n])
    requires forall x :: x in r' && x !in r ==>
               !Seen(t, list, descs, n) && load(descs[n]).Loaded? && x == NewSection(t, descs[n], load)
    ensures Gathers(t, list, descs[..n + 1], load, r')
  {
    hide Strict, Seen;
    var before, more := descs[..n], descs[..n + 1];
    forall i | 0 <= i < |more| ensures HoldsDesc(t, r', more[i]) {
      if i < n {
        assert more[i] == before[i] && HoldsDesc(t, r, before[i]);
      }
    }
    forall x | x in r' ensures ComesFrom(t, list, more, load, x) {
      if x in r {
        assert ComesFrom(t, list, before, load, x);
        if x !in list {
          var i :| 0 <= i < n && !Seen(t, list, before, i) && load(before[i]).Loaded?
                   && x == NewSection(t, before[i], load);
          SeenBefore(t, list, descs, load, n, i);
          SeenBefore(t, list, descs, load, n + 1, i);
          assert more[i] == before[i];
        }
      } else {
        SeenBefore(t, list, descs, load, n + 1, n);
        assert more[n] == descs[n];
      }
    }
  }

  /**
   Loading a list of descriptors, whatever the backend answers: it stops at the first descriptor that
   clashes or is refused, with that status; if there is none, the list gathers what it held and all new
   descriptors as the backend loaded them.
   */
  lemma {:induction false} AddAllOutcome(t: MemType, list: seq<SectionDesc>, descs: seq<BlobDesc>, load: Loader, n: nat)
    requires Strict(list) && n <= |descs|
    ensures var out := AddAll(t, list, descs[..n], load);
            if out.Done? then NoneFails(t, list, descs[..n], load) && Gathers(t, list, descs[..n], load, out.value)
            else
              exists i :: 0 <= i < n && NoneFails(t, list, descs[..i], load) && Fails(t, list, descs, load, i)
                          && out.st == StatusOf(t, list, descs, load, i)
  {
    hide AddAll, AddOne, Strict, Fails, StatusOf, Gathers;
    if n == 0 {
      NothingGathered(t, list, descs, load);
    } else {
      AddAllOutcome(t, list, descs, load, n - 1);
      AddAllNext(t, list, descs, n - 1, load);
      var before := AddAll(t, list, descs[..n - 1], load);
      if before.Done? { OneMore(t, list, descs, load, n - 1, before.value); }
    }
  }

  lemma NothingGathered(t: MemType, list: seq<SectionDesc>, descs: seq<BlobDesc>, load: Loader)
    requires Strict(list)
    ensures AddAll(t, list, descs[..0], load) == Done(list) && Gathers(t, list, descs[..0], load, list)
  {
  }

  lemma OneMore(t: MemType, list: seq<SectionDesc>, descs: seq<BlobDesc>, load: Loader, n: nat, r: seq<SectionDesc>)
    requires n < |descs| && NoneFails(t, list, descs[..n], load) && Gathers(t, list, descs[..n], load, r)
    ensures match AddOne(t, r, descs[n], load)
            case Done(r') => NoneFails(t, list, descs[..n + 1], load) && Gathers(t, list, descs[..n + 1], load, r')
            case Error(st) => Fails(t, list, descs, load, n) && st == StatusOf(t, list, descs, load, n)
  {
    hide AddOne, Strict, Clashes, Seen, HoldsDesc, HasRange, HasOther;
    var d := descs[n];
    AddOneOutcome(t, r, d, load);
    GatherNext(t, list, descs, load, n, r);
    OtherIsRange(r, Range(t, d), d.info);
    var one := AddOne(t, r, d, load);
    if one.Done? {
      if !Seen(t, list, descs, n) { NewHolds(t, r, d, load, one.value); }
      GatherStep(t, list, descs, load, n, r, one.value);
      var more := descs[..n + 1];
      forall i | 0 <= i < |more| ensures !Fails(t, list, more, load, i) {
        SeenBefore(t, list, descs, load, n + 1, i);
        if i < n { SeenBefore(t, list, descs, load, n, i); }
      }
    }
  }

  lemma OtherIsRange(list: seq<SectionDesc>, q: BasicDesc, info: Blob)
    ensures HasOther(list, q, info) ==> HasRange(list, q)
  {
  }

  lemma NewHolds(t: MemType, r: seq<SectionDesc>, d: BlobDesc, load: Loader, r': seq<SectionDesc>)
    requires load(d).Loaded? && Elems(r') == Elems(r) + {NewSection(t, d, load)}
    ensures HoldsDesc(t, r', d) && (forall x :: x in r ==> x in r')
    ensures forall x :: x in r' && x !in r ==> x == NewSection(t, d, load)
  {
    assert NewSection(t, d, load) in Elems(r');
    forall x | x in r ensures x in r' { assert x in Elems(r'); }
    forall x | x in r' && x !in r ensures x == NewSection(t, d, load) { assert x in Elems(r'); }
  }

  // The same of all of them, with the first that fails named by its place.
  ghost predicate FailsFirst(t: MemType, list: seq<SectionDesc>, descs: seq<BlobDesc>, load: Loader, st: Failure,
                             i: nat)
  {
    && i < |descs| && NoneFails(t, list, descs[..i], load) && Fails(t, list, descs, load, i)
    && st == StatusOf(t, list, descs, load, i)
  }

  lemma ListOutcome(t: MemType, list: seq<SectionDesc>, descs: seq<BlobDesc>, load: Loader)
    requires Strict(list)
    ensures AddAll(t, list, descs, load).Done? <==> NoneFails(t, list, descs, load)
    ensures AddAll(t, list, descs, load).Done? ==> Gathers(t, list, descs, load, AddAll(t, list, descs, load).value)
    ensures AddAll(t, list, descs, load).Error? ==>
              exists i :: FailsFirst(t, list, descs, load, AddAll(t, list, descs, load).st, i)
  {
    hide AddAll, Strict, Fails, StatusOf, Gathers;
    AddAllOutcome(t, list, descs, load, |descs|);
    assert descs[..|descs|] == descs;
    if AddAll(t, list, descs, load).Error? {
      var st := AddAll(t, list, descs, load).st;
      var i :| 0 <= i < |descs| && NoneFails(t, list, descs[..i], load) && Fails(t, list, descs, load, i)
               && st == StatusOf(t, list, descs, load, i);
      assert FailsFirst(t, list, descs, load, st, i);
    }
  }

  // ---- The section map ----

  ghost predicate StrictLists(m: Remote) {
    forall k :: Strict(At(m, k))
  }

  // No entry is of a backend without remote support, and no descriptor of any list fails.
  ghost predicate Fits(known: Backends, m: Remote, entries: seq<Entry>, loaders: Loaders) {
    && RemoteCapable(known, entries)
    && forall k: Key :: NoneFails(k.0, At(m, k), DescsFor(known, entries, k), loaders(k))
  }

  ghost predicate GathersAll(known: Backends, m: Remote, entries: seq<Entry>, loaders: Loaders, r: Remote) {
    && r.Keys == m.Keys + KeysOf(known, entries)
    && forall k: Key :: Gathers(k.0, At(m, k), DescsFor(known, entries, k), loaders(k), At(r, k))
  }

  // Entry i is of a backend without remote support, or brings the first descriptor of its list that fails.
  ghost predicate EntryFails(known: Backends, m: Remote, entries: seq<Entry>, loaders: Loaders, i: nat, st: Failure) {
    && i < |entries| && entries[i].backend in known
    && if !known[entries[i].backend] then st == Unknown
       else
         var k := KeyOf(entries[i]);
         FailsFrom(k, At(m, k), DescsFor(known, entries[..i + 1], k), loaders(k), st,
                   |DescsFor(known, entries[..i], k)|)
  }

  // The first descriptor that fails is not before this place.
  ghost predicate FailsFrom(k: Key, list: seq<SectionDesc>, descs: seq<BlobDesc>, load: Loader, st: Failure,
                            from: nat)
  {
    exists p :: from <= p && FailsFirst(k.0, list, descs, load, st, p)
  }

  lemma FitsDone(known: Backends, m: Remote, entries: seq<Entry>, loaders: Loaders)
    requires StrictLists(m) && RemoteCapable(known, entries)
    ensures LoadEntries(known, m, entries, loaders).Done? <==> Fits(known, m, entries, loaders)
    ensures LoadEntries(known, m, entries, loaders).Done? ==>
              GathersAll(known, m, entries, loaders, LoadEntries(known, m, entries, loaders).value)
  {
    hide LoadEntries, DescsFor, AddAll, Strict, NoneFails, Gathers, KeysOf;
    LoadByKey(known, m, entries, loaders);
    forall k: Key
      ensures ListFor(known, m, entries, loaders, k).Done?
              <==> NoneFails(k.0, At(m, k), DescsFor(known, entries, k), loaders(k))
      ensures ListFor(known, m, entries, loaders, k).Done? ==>
                Gathers(k.0, At(m, k), DescsFor(known, entries, k), loaders(k),
                        ListFor(known, m, entries, loaders, k).value)
    {
      ListOutcome(k.0, At(m, k), DescsFor(known, entries, k), loaders(k));
    }
  }

  // The entry behind others that fit.
  lemma NextEntry(known: Backends, m: Remote, entries: seq<Entry>, loaders: Loaders, i: nat)
    requires StrictLists(m) && i < |entries| && Fits(known, m, entries[..i], loaders)
    ensures var out := LoadEntries(known, m, entries[..i + 1], loaders);
            if out.Done? then RemoteCapable(known, entries[..i + 1])
            else EntryFails(known, m, entries, loaders, i, out.st)
  {
    hide LoadEntries, DescsFor, AddAll, Strict, NoneFails, Gathers, KeysOf;
    var e, k, before := entries[i], KeyOf(entries[i]), entries[..i];
    assert entries[..i + 1] == before + [e];
    FitsDone(known, m, before, loaders);
    LoadAppend(known, m, before, [e], loaders);
    var r := LoadEntries(known, m, before, loaders).value;
    LoadOne(known, r, e, loaders);
    LoadByKey(known, m, before, loaders);
    assert ListFor(known, m, before, loaders, k) == Done(At(r, k));
    if e.backend in known && known[e.backend] {
      DescsForAppend(known, before, [e], k);
      DescsForSingle(known, e);
      var all, load := DescsFor(known, before, k) + e.descs, loaders(k);
      AddAllAppend(e.t, At(m, k), DescsFor(known, before, k), e.descs, load);
      ListOutcome(e.t, At(m, k), all, load);
      if AddAll(e.t, At(m, k), all, load).Error? {
        var st := AddAll(e.t, At(m, k), all, load).st;
        var p: nat :| FailsFirst(e.t, At(m, k), all, load, st, p);
        LaterFails(e.t, At(m, k), DescsFor(known, before, k), e.descs, load, st, p);
      }
    }
  }

  lemma LoadOne(known: Backends, m: Remote, e: Entry, loaders: Loaders)
    ensures LoadEntries(known, m, [e], loaders) ==
            if e.backend !in known then Done(m)
            else if !known[e.backend] then Error(Unknown)
            else
              match AddAll(e.t, At(m, KeyOf(e)), e.descs, loaders(KeyOf(e)))
              case Error(st) => Error(st)
              case Done(l) => Done(m[KeyOf(e) := l])
  {
    hide AddAll;
    assert [e][1..] == [];
  }

  lemma DescsForSingle(known: Backends, e: Entry)
    requires e.backend in known
    ensures DescsFor(known, [e], KeyOf(e)) == e.descs
  {
    assert [e][1..] == [];
  }

  // What fails first in a + b although nothing in a does is in b.
  lemma LaterFails(t: MemType, list: seq<SectionDesc>, a: seq<BlobDesc>, b: seq<BlobDesc>, load: Loader, st: Failure,
                   p: nat)
    requires NoneFails(t, list, a, load) && FailsFirst(t, list, a + b, load, st, p)
    ensures |a| <= p
  {
    hide Fails;
    if p < |a| {
      assert (a + b)[..|a|] == a;
      SeenBefore(t, list, a + b, load, |a|, p);
    }
  }

  /**
   Loading the entries of a blob, whatever the backends answer. It succeeds exactly when every known
   backend among them takes remote metadata, no two descriptors or sections of one list disagree about the
   metadata of a range, and no backend refuses a new descriptor; every list then gathers what it held
   and what is new to it. Otherwise the first entry that fails says with what status.
   */
  lemma {:induction false} LoadOutcome(known: Backends, m: Remote, entries: seq<Entry>, loaders: Loaders, n: nat)
    requires StrictLists(m) && n <= |entries|
    ensures var out := LoadEntries(known, m, entries[..n], loaders);
            if out.Done? then
              Fits(known, m, entries[..n], loaders) && GathersAll(known, m, entries[..n], loaders, out.value)
            else
              exists i :: 0 <= i < n && Fits(known, m, entries[..i], loaders)
                          && EntryFails(known, m, entries, loaders, i, out.st)
  {
    hide LoadEntries, Fits, GathersAll, EntryFails, Strict;
    if n == 0 {
      FitsDone(known, m, entries[..0], loaders);
      NoEntries(known, m, loaders);
    } else {
      LoadOutcome(known, m, entries, loaders, n - 1);
      assert entries[..n] == entries[..n - 1] + [entries[n - 1]];
      LoadAppend(known, m, entries[..n - 1], [entries[n - 1]], loaders);
      if LoadEntries(known, m, entries[..n - 1], loaders).Done? {
        NextEntry(known, m, entries, loaders, n - 1);
        if LoadEntries(known, m, entries[..n], loaders).Done? { FitsDone(known, m, entries[..n], loaders); }
      }
    }
  }

  lemma NoEntries(known: Backends, m: Remote, loaders: Loaders)
    ensures LoadEntries(known, m, [], loaders) == Done(m)
  {
  }

  /** So after a load every descriptor of a known backend is in its list, with its own metadata. */
  lemma LoadedIsThere(known: Backends, m: Remote, entries: seq<Entry>, loaders: Loaders, i: nat, j: nat)
    requires StrictLists(m) && i < |entries| && j < |entries[i].descs| && entries[i].backend in known
    requires LoadEntries(known, m, entries, loaders).Done?
    ensures var list := At(LoadEntries(known, m, entries, loaders).value, KeyOf(entries[i]));
            HoldsDesc(entries[i].t, list, entries[i].descs[j])
  {
    hide LoadEntries, Fits, Strict, HoldsDesc;
    LoadOutcome(known, m, entries, loaders, |entries|);
    assert entries[..|entries|] == entries;
    var k := KeyOf(entries[i]);
    InDescsFor(known, entries, i, j);
  }

  lemma {:induction false} InDescsFor(known: Backends, entries: seq<Entry>, i: nat, j: nat)
    requires i < |entries| && j < |entries[i].descs| && entries[i].backend in known
    ensures entries[i].descs[j] in DescsFor(known, entries, KeyOf(entries[i]))
    decreases |entries|
  {
    if i > 0 { InDescsFor(known, entries[1..], i - 1, j); }
  }

  /** And a refusal is never passed over: the first new descriptor that is refused ends the load with its status. */
  lemma RefusalEnds(known: Backends, m: Remote, e: Entry, loaders: Loaders, j: nat)
    requires StrictLists(m) && e.backend in known && known[e.backend] && j < |e.descs|
    requires var k := KeyOf(e); NoneFails(k.0, At(m, k), e.descs[..j], loaders(k))
    requires var k := KeyOf(e);
             !Seen(k.0, At(m, k), e.descs, j) && !Clashes(k.0, At(m, k), e.descs, j) && loaders(k)(e.descs[j]).Refused?
    ensures LoadEntries(known, m, [e], loaders) == Error(loaders(KeyOf(e))(e.descs[j]).st)
  {
    hide LoadEntries, AddAll, Strict, Seen, Clashes;
    var k := KeyOf(e);
    LoadOne(known, m, e, loaders);
    ListOutcome(e.t, At(m, k), e.descs, loaders(k));
    assert Fails(e.t, At(m, k), e.descs, loaders(k), j);
    var st := AddAll(e.t, At(m, k), e.descs, loaders(k)).st;
    var p: nat :| FailsFirst(e.t, At(m, k), e.descs, loaders(k), st, p);
    if p < j { SeenBefore(e.t, At(m, k), e.descs, loaders(k), j, p); }
    if j < p { SeenBefore(e.t, At(m, k), e.descs, loaders(k), p, j); }
  }
}
