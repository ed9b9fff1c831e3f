/**
 The local section map and the account of every backend: at all times the metadata registered with a
 backend is exactly the metadata its section lists hold.
 */
module LocalSections {
  import opened Descriptors
  import opened Coverage
  import opened SectionList
  import opened SecDescLists
  import opened Registration

  type Sections = map<(MemType, Engine), seq<SectionDesc>>

  function ListAt(m: Sections, t: MemType, e: Engine): seq<SectionDesc> {
    if (t, e) in m then m[(t, e)] else []
  }

  const ALL_TYPES: seq<MemType> := [DRAM, VRAM, BLK, OBJ, FILE]

  // The metadata the section lists of a backend hold, over the given memory types.
  function StoredOver(m: Sections, e: Engine, types: seq<MemType>): multiset<Meta> {
    if types == [] then multiset{}
    else StoredOver(m, e, types[..|types| - 1]) + Metas(ListAt(m, types[|types| - 1], e))
  }

  function Stored(m: Sections, e: Engine): multiset<Meta> {
    StoredOver(m, e, ALL_TYPES)
  }

  // The maps hold the same lists of the backend, except for one memory type.
  ghost predicate SameExcept(m: Sections, m': Sections, t: MemType, e: Engine) {
    forall t' :: t' != t ==> ListAt(m', t', e) == ListAt(m, t', e)
  }

  lemma {:induction false} StoredGrowOver(m: Sections, m': Sections, t: MemType, e: Engine, more: multiset<Meta>,
                                          types: seq<MemType>)
    requires SameExcept(m, m', t, e) && Metas(ListAt(m', t, e)) == Metas(ListAt(m, t, e)) + more && Distinct(types)
    ensures StoredOver(m', e, types) == if t in types then StoredOver(m, e, types) + more else StoredOver(m, e, types)
  {
    hide Metas, ListAt;
    if types != [] {
      var n := |types| - 1;
      StoredGrowOver(m, m', t, e, more, types[..n]);
      assert types == types[..n] + [types[n]] && types[n] !in types[..n];
      if types[n] == t {
        PlusAssoc(StoredOver(m, e, types[..n]), Metas(ListAt(m, t, e)), more);
      } else {
        Swap(StoredOver(m, e, types[..n]), more, Metas(ListAt(m, types[n], e)));
      }
    }
  }

  /** When one list gains metadata, the backend's account gains exactly that. */
  lemma StoredGrow(m: Sections, m': Sections, t: MemType, e: Engine, more: multiset<Meta>)
    requires SameExcept(m, m', t, e) && Metas(ListAt(m', t, e)) == Metas(ListAt(m, t, e)) + more
    ensures Stored(m', e) == Stored(m, e) + more
  {
    hide Metas, ListAt;
    StoredGrowOver(m, m', t, e, more, ALL_TYPES);
    assert t in ALL_TYPES by { match t case DRAM => case VRAM => case BLK => case OBJ => case FILE => }
  }

  lemma {:induction false} StoredIncludes(m: Sections, t: MemType, e: Engine, types: seq<MemType>)
    requires t in types
    ensures Metas(ListAt(m, t, e)) <= StoredOver(m, e, types)
  {
    hide Metas, ListAt;
    var n := |types| - 1;
    if types[n] != t {
      assert types == types[..n] + [types[n]];
      StoredIncludes(m, t, e, types[..n]);
    }
  }

  lemma {:induction false} MetasNormalized(t: MemType, batch: seq<SectionDesc>)
    ensures Metas(NormalizeAll(t, batch)) == Metas(batch)
  {
    if batch != [] {
      var n := |batch| - 1;
      MetasNormalized(t, batch[..n]);
      assert NormalizeAll(t, batch)[..n] == NormalizeAll(t, batch[..n]);
    }
  }

  lemma {:induction false} StoredSame(m: Sections, m': Sections, e: Engine, types: seq<MemType>)
    requires forall t :: ListAt(m', t, e) == ListAt(m, t, e)
    ensures StoredOver(m', e, types) == StoredOver(m, e, types)
  {
    if types != [] { StoredSame(m, m', e, types[..|types| - 1]); }
  }

  lemma {:induction false} StoredNone(e: Engine, types: seq<MemType>)
    ensures StoredOver(map[], e, types) == multiset{}
  {
    if types != [] { StoredNone(e, types[..|types| - 1]); }
  }

  lemma CancelAll(a: multiset<Meta>, b: multiset<Meta>, c: multiset<Meta>)
    requires a + c == b + c
    ensures a == b
  {
    assert a == a + c - c && b == b + c - c;
  }

  // Where each queried descriptor is first found in the list.
  ghost predicate FirstPlaces(s: seq<SectionDesc>, t: MemType, mem: seq<BasicDesc>, indices: seq<nat>) {
    && |indices| == |mem| && Below(indices, |s|)
    && (forall j :: 0 <= j < |mem| ==> s[indices[j]].basic == NormalizeQuery(t, mem[j]))
    && forall j :: 0 <= j < |mem| ==>
         forall k :: 0 <= k < indices[j] ==> s[k].basic != NormalizeQuery(t, mem[j])
  }

  // The indices of all queried descriptors, if all are there.
  method FindAll(target: SecDescList, mem: seq<BasicDesc>) returns (ok: bool, indices: seq<nat>)
    requires target.Valid()
    ensures ok <==> HoldingAll(target.descs, target.memType, mem)
    ensures ok ==> FirstPlaces(target.descs, target.memType, mem, indices)
    ensures ok ==> (DistinctInRange(indices, |target.descs|) <==> DistinctKeys(target.memType, mem))
  {
    hide Sorted, NoZeroLen, NormalizeQuery;
    indices := [];
    for i := 0 to |mem|
      invariant |indices| == i && Below(indices, |target.descs|)
      invariant forall j :: 0 <= j < i ==> target.descs[indices[j]].basic == NormalizeQuery(target.memType, mem[j])
      invariant forall j :: 0 <= j < i ==> Holding(target.descs, NormalizeQuery(target.memType, mem[j]))
      invariant forall j :: 0 <= j < i ==>
                  forall k :: 0 <= k < indices[j] ==> target.descs[k].basic != NormalizeQuery(target.memType, mem[j])
    {
      var index := target.GetIndex(mem[i]);
      if index < 0 {
        assert !Holding(target.descs, NormalizeQuery(target.memType, mem[i]));
        return false, [];
      }
      assert target.descs[index] in target.descs;
      indices := indices + [index];
    }
    ok := true;
    FirstsDistinct(target.descs, target.memType, mem, indices);
  }

  // No two descriptors of the list have the same normalized key.
  ghost predicate DistinctKeys(t: MemType, mem: seq<BasicDesc>) {
    forall i, j :: 0 <= i < j < |mem| ==> NormalizeQuery(t, mem[i]) != NormalizeQuery(t, mem[j])
  }

  // Descriptors found at their first places are at distinct places exactly when they are distinct.
  lemma FirstsDistinct(s: seq<SectionDesc>, t: MemType, mem: seq<BasicDesc>, indices: seq<nat>)
    requires FirstPlaces(s, t, mem, indices)
    ensures DistinctInRange(indices, |s|) <==> DistinctKeys(t, mem)
  {
    hide NormalizeQuery;
    if DistinctInRange(indices, |s|) {
      forall i, j | 0 <= i < j < |mem| ensures NormalizeQuery(t, mem[i]) != NormalizeQuery(t, mem[j]) {
        assert indices[i] != indices[j];
      }
    }
  }

  ghost predicate Holding(s: seq<SectionDesc>, q: BasicDesc) {
    exists d :: d in s && d.basic == q
  }

  ghost predicate HoldingAll(s: seq<SectionDesc>, t: MemType, mem: seq<BasicDesc>) {
    forall i :: 0 <= i < |mem| ==> Holding(s, NormalizeQuery(t, mem[i]))
  }

  // Sections of a list, one for each queried descriptor.
  ghost predicate PartOf(part: seq<SectionDesc>, s: seq<SectionDesc>, t: MemType, mem: seq<BasicDesc>) {
    && |part| == |mem| && HoldingAll(part, t, mem)
    && forall x :: x in part ==> x in s && exists i :: 0 <= i < |mem| && x.basic == NormalizeQuery(t, mem[i])
  }

  lemma PartPermuted(part: seq<SectionDesc>, r: seq<SectionDesc>, s: seq<SectionDesc>, t: MemType, mem: seq<BasicDesc>)
    requires PartOf(part, s, t, mem) && multiset(r) == multiset(part)
    ensures PartOf(r, s, t, mem)
  {
    assert |r| == |part| by { assert |multiset(r)| == |multiset(part)|; }
    assert forall x :: x in r <==> x in part by {
      forall x ensures x in r <==> x in part { assert x in multiset(r) <==> x in multiset(part); }
    }
  }

  lemma NormalizedAlready(t: MemType, s: seq<SectionDesc>, part: seq<SectionDesc>)
    requires NoZeroLen(t, s) && forall i :: 0 <= i < |part| ==> part[i] in s
    ensures NormalizeAll(t, part) == part
  {
  }

  // The sorted sublist of the queried descriptors, if all are there.
  method PickPart(base: SecDescList, mem: seq<BasicDesc>) returns (ok: bool, part: seq<SectionDesc>)
    requires base.Valid()
    ensures ok <==> HoldingAll(base.descs, base.memType, mem)
    ensures ok ==> Sorted(part) && PartOf(part, base.descs, base.memType, mem)
  {
    hide Sorted, NoZeroLen, NormalizeQuery;
    var descs := [];
    for i := 0 to |mem|
      invariant |descs| == i && forall j :: 0 <= j < i ==>
                  descs[j] in base.descs && descs[j].basic == NormalizeQuery(base.memType, mem[j])
    {
      var index := base.GetIndex(mem[i]);
      if index < 0 {
        assert !Holding(base.descs, NormalizeQuery(base.memType, mem[i]));
        return false, [];
      }
      descs := descs + [base.descs[index]];
    }
    assert HoldingAll(base.descs, base.memType, mem) && PartOf(descs, base.descs, base.memType, mem) by {
      forall i | 0 <= i < |mem|
        ensures Holding(base.descs, NormalizeQuery(base.memType, mem[i]))
                && Holding(descs, NormalizeQuery(base.memType, mem[i]))
      {
        assert descs[i] in descs;
      }
    }
    NormalizedAlready(base.memType, base.descs, descs);
    var resp := new SecDescList(base.memType);
    ghost var _ := resp.AddDescs(descs, false);
    PartPermuted(descs, resp.descs, base.descs, base.memType, mem);
    ok, part := true, resp.descs;
  }

  /**
   What a removal of registered descriptors deregisters, section by section, is what its list loses if
   and only if the descriptors are distinct.
   */
  lemma RepeatedRemoval(s: seq<SectionDesc>, t: MemType, mem: seq<BasicDesc>, indices: seq<nat>)
    requires FirstPlaces(s, t, mem, indices)
    ensures multiset(Going(s, indices, |s|)) == multiset(Named(s, indices, |mem|)) <==> DistinctKeys(t, mem)
  {
    hide Going, Named, NormalizeQuery, DistinctKeys;
    FirstsDistinct(s, t, mem, indices);
    StrikesNamedIff(s, indices);
  }

  /** The sections that distinct indices name are part of the backend's account. */
  lemma NamedIsStored(m: Sections, t: MemType, e: Engine, indices: seq<nat>)
    requires DistinctInRange(indices, |ListAt(m, t, e)|)
    ensures Metas(Named(ListAt(m, t, e), indices, |indices|)) <= Stored(m, e)
  {
    hide Metas;
    var list := ListAt(m, t, e);
    var order := Arrange(indices);
    RemoveConserves(list, indices, order);
    MetasUnion(list, Compact(list, order, |list|), Named(list, indices, |indices|));
    assert t in ALL_TYPES by { match t case DRAM => case VRAM => case BLK => case OBJ => case FILE => }
    StoredIncludes(m, t, e, ALL_TYPES);
  }

  // The list is left with its other sections, or is gone if there are none.
  ghost predicate Removal(list: seq<SectionDesc>, m: Sections, t: MemType, e: Engine, indices: seq<nat>) {
    && ListAt(m, t, e) == Staying(list, indices, |list|)
    && ((t, e) in m <==> Staying(list, indices, |list|) != [])
  }

  // Every deregistration took one object from the backend or found none to take.
  ghost predicate Deregistered(backend: Engine, live: multiset<Meta>, strays: multiset<Meta>, gone: multiset<Meta>)
    reads backend
  {
    backend.live == live - gone && backend.live + gone + strays == live + backend.strays
  }

  lemma StayingConserves(list: seq<SectionDesc>, indices: seq<nat>)
    requires DistinctInRange(indices, |list|)
    ensures multiset(Staying(list, indices, |list|)) + multiset(Named(list, indices, |indices|)) == multiset(list)
  {
    hide Staying, Named, Compact, DistinctInRange;
    var order := Arrange(indices);
    RemoveConserves(list, indices, order);
    CompactStays(list, indices, order, |list|);
  }

  /**
   The backend loses what it holds of the named sections' metadata; every call takes one object from it, or
   is one it had no object for.
   */
  method DeregisterAll(backend: Engine, list: seq<SectionDesc>, indices: seq<nat>)
    requires Below(indices, |list|)
    modifies backend
    ensures Deregistered(backend, old(backend.live), old(backend.strays), Metas(Named(list, indices, |indices|)))
    ensures Metas(Named(list, indices, |indices|)) <= old(backend.live) ==> backend.strays == old(backend.strays)
  {
    hide Metas;
    ghost var named := Named(list, indices, |indices|);
    ghost var had, noted := backend.live, backend.strays;
    MetasNone();
    assert named[..0] == [];
    NothingTaken(had, noted);
    for j := 0 to |indices|
      invariant backend.live == had - Metas(named[..j])
      invariant backend.live + Metas(named[..j]) + noted == had + backend.strays
    {
      assert named[..j + 1] == named[..j] + [named[j]];
      MetasConcat(named[..j], [named[j]]);
      MetasOne(named[j]);
      ghost var live, strays := backend.live, backend.strays;
      backend.DeregisterMem(list[indices[j]].meta);
      OneTaken(had, noted, Metas(named[..j]), live, strays, named[j].meta, backend.strays);
    }
    assert named[..|named|] == named;
    if Metas(named) <= had { NoneStray(had, noted, Metas(named), backend.live, backend.strays); }
  }

  lemma GivenBack(had: multiset<Meta>, part: multiset<Meta>)
    requires part <= had
    ensures had == had - part + part
  {
  }

  lemma NothingTaken(had: multiset<Meta>, noted: multiset<Meta>)
    ensures had == had - multiset{} && had + multiset{} + noted == had + noted
  {
  }

  lemma OneTaken(had: multiset<Meta>, noted: multiset<Meta>, gone: multiset<Meta>, live: multiset<Meta>,
                 strays: multiset<Meta>, md: Meta, strays': multiset<Meta>)
    requires live == had - gone && live + gone + noted == had + strays
    requires strays' == if md in live then strays else strays + multiset{md}
    ensures live - multiset{md} == had - (gone + multiset{md})
    ensures (live - multiset{md}) + (gone + multiset{md}) + noted == had + strays'
  {
    forall x ensures ((live - multiset{md}) + (gone + multiset{md}) + noted)[x] == (had + strays')[x] {
      assert (live + gone + noted)[x] == (had + strays)[x];
    }
  }

  lemma NoneStray(had: multiset<Meta>, noted: multiset<Meta>, gone: multiset<Meta>, live: multiset<Meta>,
                  strays: multiset<Meta>)
    requires gone <= had && live == had - gone && live + gone + noted == had + strays
    ensures strays == noted
  {
    forall x ensures strays[x] == noted[x] {
      assert (live + gone + noted)[x] == (had + strays)[x];
    }
  }

  // ---- The invariant, on values ----

  ghost predicate Kept(m: Sections, engines: set<Engine>) {
    forall k :: k in m ==> k.1 in engines && Sorted(m[k]) && NoZeroLen(k.0, m[k]) && Genuine(k.0, k.1, m[k])
  }

  function BackendsOf(backends: map<MemType, set<Engine>>, t: MemType): set<Engine> {
    if t in backends then backends[t] else {}
  }

  // memToBackend lists, per memory type, exactly the backends that have a list of that type.
  ghost predicate Mirrors(m: Sections, backends: map<MemType, set<Engine>>, engines: set<Engine>) {
    forall t, e :: e in engines ==> (e in BackendsOf(backends, t) <==> (t, e) in m)
  }

  // Every backend holds what its lists hold, and `more` on top at one backend.
  ghost predicate Balanced(m: Sections, engines: set<Engine>, at: Engine?, more: multiset<Meta>)
    reads engines
  {
    && (forall e :: e in engines && e != at ==> e.live == Stored(m, e))
    && (at != null && at in engines ==> at.live == Stored(m, at) + more)
  }

  lemma KeptPut(m: Sections, engines: set<Engine>, t: MemType, e: Engine, list: seq<SectionDesc>)
    requires Kept(m, engines) && e in engines && Sorted(list) && NoZeroLen(t, list) && Genuine(t, e, list)
    ensures Kept(m[(t, e) := list], engines)
  {
    hide Sorted, NoZeroLen, Genuine;
  }

  lemma KeptDrop(m: Sections, engines: set<Engine>, k: (MemType, Engine))
    requires Kept(m, engines)
    ensures Kept(m - {k}, engines)
  {
    hide Sorted, NoZeroLen, Genuine;
  }

  lemma GenuineMerged(t: MemType, e: Engine, list: seq<SectionDesc>, batch: seq<SectionDesc>, r: seq<SectionDesc>)
    requires Genuine(t, e, list) && Backed(t, e, batch)
    requires multiset(r) == multiset(list) + multiset(NormalizeAll(t, batch))
    ensures Genuine(t, e, r)
  {
    forall x | x in r ensures IsGenuine(t, e, x) {
      assert x in multiset(r);
      if x !in list {
        assert x in NormalizeAll(t, batch);
        var i :| 0 <= i < |batch| && NormalizeAll(t, batch)[i] == x;
      }
    }
  }

  lemma {:induction false} StayingWithin(list: seq<SectionDesc>, indices: seq<nat>, n: nat)
    requires n <= |list|
    ensures forall x :: x in Staying(list, indices, n) ==> x in list
  {
    hide Struck;
    if n > 0 { StayingWithin(list, indices, n - 1); }
  }

  lemma MirrorsPut(m: Sections, backends: map<MemType, set<Engine>>, engines: set<Engine>, t: MemType, e: Engine,
                   list: seq<SectionDesc>)
    requires Mirrors(m, backends, engines) && (t, e) in m
    ensures Mirrors(m[(t, e) := list], backends, engines)
  {
  }

  lemma MirrorsAdd(m: Sections, backends: map<MemType, set<Engine>>, engines: set<Engine>, t: MemType, e: Engine)
    requires Mirrors(m, backends, engines) && e in engines
    ensures Mirrors(m[(t, e) := []], backends[t := BackendsOf(backends, t) + {e}], engines)
  {
    var m', backends' := m[(t, e) := []], backends[t := BackendsOf(backends, t) + {e}];
    forall t', e' | e' in engines ensures e' in BackendsOf(backends', t') <==> (t', e') in m' {
      assert e' in BackendsOf(backends, t') <==> (t', e') in m;
    }
  }

  lemma MirrorsDrop(m: Sections, backends: map<MemType, set<Engine>>, engines: set<Engine>, t: MemType, e: Engine)
    requires Mirrors(m, backends, engines) && e in engines
    ensures Mirrors(m - {(t, e)}, backends[t := BackendsOf(backends, t) - {e}], engines)
  {
    var m', backends' := m - {(t, e)}, backends[t := BackendsOf(backends, t) - {e}];
    forall t', e' | e' in engines ensures e' in BackendsOf(backends', t') <==> (t', e') in m' {
      assert e' in BackendsOf(backends, t') <==> (t', e') in m;
    }
  }

  // m' is m up to the list of one memory type and backend.
  ghost predicate Changed(m: Sections, m': Sections, t: MemType, e: Engine) {
    m - {(t, e)} == m' - {(t, e)}
  }

  lemma ChangedLists(m: Sections, m': Sections, t: MemType, e: Engine, t': MemType, e': Engine)
    requires Changed(m, m', t, e) && (t', e') != (t, e)
    ensures ListAt(m', t', e') == ListAt(m, t', e')
  {
    assert (t', e') in m - {(t, e)} <==> (t', e') in m;
    assert (t', e') in m' - {(t, e)} <==> (t', e') in m';
    if (t', e') in m { assert (m - {(t, e)})[(t', e')] == (m' - {(t, e)})[(t', e')]; }
  }

  /** Moving `more` from the backend's excess into its list settles the account. */
  lemma Settle(m: Sections, m': Sections, engines: set<Engine>, t: MemType, backend: Engine, more: multiset<Meta>)
    requires Balanced(m, engines, backend, more) && Changed(m, m', t, backend)
    requires Metas(ListAt(m', t, backend)) == Metas(ListAt(m, t, backend)) + more
    ensures Balanced(m', engines, null, multiset{})
  {
    hide Metas, ListAt, Stored, Changed;
    forall t' | t' != t
      ensures ListAt(m', t', backend) == ListAt(m, t', backend)
    {
      ChangedLists(m, m', t, backend, t', backend);
    }
    StoredGrow(m, m', t, backend, more);
    forall e | e in engines ensures e.live == Stored(m', e) {
      if e != backend { StoredElsewhere(m, m', t, backend, e); }
    }
  }

  lemma StoredElsewhere(m: Sections, m': Sections, t: MemType, backend: Engine, e: Engine)
    requires Changed(m, m', t, backend) && e != backend
    ensures Stored(m', e) == Stored(m, e)
  {
    hide ListAt, Changed;
    forall t' ensures ListAt(m', t', e) == ListAt(m, t', e) { ChangedLists(m, m', t, backend, t', e); }
    StoredSame(m, m', e, ALL_TYPES);
  }

  class LocalSection {
    var sectionMap: Sections
    var memToBackend: map<MemType, set<Engine>>
    // The agent's backends; every backend passed in is one of them.
    ghost const engines: set<Engine>

    // The lists are well-kept, the two maps mirror each other, and every backend's account balances.
    ghost predicate Valid()
      reads this, engines
    {
      && Kept(sectionMap, engines)
      && Mirrors(sectionMap, memToBackend, engines)
      && Balanced(sectionMap, engines, null, multiset{})
    }

    constructor (ghost engines: set<Engine>)
      requires forall e :: e in engines ==> e.live == multiset{}
      ensures Valid() && this.engines == engines && sectionMap == map[]
    {
      sectionMap, memToBackend := map[], map[];
      this.engines := engines;
      new;
      forall e | e in engines ensures Stored(sectionMap, e) == multiset{} {
        StoredNone(e, ALL_TYPES);
      }
    }

    // Find the list, or add an empty one to both maps.
    method Emplace(t: MemType, backend: Engine)
      requires Valid() && backend in engines
      modifies this
      ensures Valid() && (t, backend) in sectionMap
      ensures sectionMap == if (t, backend) in old(sectionMap) then old(sectionMap)
                            else old(sectionMap)[(t, backend) := []]
    {
      hide Sorted, Mirrors, Kept, Stored, Balanced;
      if (t, backend) !in sectionMap {
        ghost var before := sectionMap;
        SortedNone(t);
        KeptPut(sectionMap, engines, t, backend, []);
        MirrorsAdd(sectionMap, memToBackend, engines, t, backend);
        Excess(sectionMap, engines, backend);
        sectionMap := sectionMap[(t, backend) := []];
        memToBackend := memToBackend[t := BackendsOf(memToBackend, t) + {backend}];
        assert Metas([]) + multiset{} == Metas([]);
        Settle(before, sectionMap, engines, t, backend, multiset{});
      }
    }

    /**
     Registers a descriptor list with a backend that may fail at any element and any of its calls.
     Success adds one section per descriptor. Failure leaves the backend as it was; all that remains
     of it is an empty list for a memory type and backend that had none.
     */
    method AddDescList(mem: seq<BasicDesc>, t: MemType, backend: Engine?, self: SecDescList)
      returns (st: Status, ghost batch: seq<SectionDesc>, ghost selfBatch: seq<SectionDesc>)
      requires Valid() && (backend != null ==> backend in engines) && self.Valid() && self.memType == t
      modifies this, backend, self
      ensures Valid() && self.Valid()
      ensures backend == null ==> st == InvalidParam && sectionMap == old(sectionMap) && self.descs == old(self.descs)
      ensures st == Success ==>
                backend != null && |batch| == |mem| && (forall i :: 0 <= i < |mem| ==> batch[i].basic == mem[i])
      ensures st == Success ==> (t, backend) in sectionMap
      ensures st == Success ==> sectionMap == old(sectionMap)[(t, backend) := sectionMap[(t, backend)]]
      ensures st == Success ==>
                multiset(sectionMap[(t, backend)]) ==
                old(multiset(ListAt(sectionMap, t, backend))) + multiset(NormalizeAll(t, batch))
      ensures st == Success ==>
                |selfBatch| == (if backend.supportsLocal then |mem| else 0)
                && (forall i :: 0 <= i < |selfBatch| ==> selfBatch[i].basic == mem[i])
      ensures st == Success ==> Backed(t, backend, batch) && Looped(backend, batch, selfBatch)
      ensures st == Success ==> Holds(backend, batch, selfBatch, old(backend.live), old(backend.loaded))
      ensures st == Success ==> multiset(self.descs) == old(multiset(self.descs)) + multiset(NormalizeAll(t, selfBatch))
      ensures st != Success && backend != null ==>
                backend.live == old(backend.live) && backend.loaded == old(backend.loaded)
      ensures backend != null ==> backend.strays == old(backend.strays)
      ensures st != Success && backend != null ==> self.descs == old(self.descs)
      ensures st != Success && backend != null ==>
                sectionMap == old(if (t, backend) in sectionMap then sectionMap else sectionMap[(t, backend) := []])
    {
      hide Metas, Loaded, Sorted, NoZeroLen, Stored, Mirrors, Kept, Balanced, NormalizeAll, Backed, Looped;
      if backend == null { return InvalidParam, [], []; }
      var local, loopback;
      st, local, loopback := RegisterSections(mem, t, backend);
      batch, selfBatch := local, loopback;
      NormalizeNone(t);
      if st == Success && backend.supportsLocal {
        ghost var _ := self.AddDescs(loopback, false);
      }
    }

    // The part of addDescList that concerns the local side.
    method RegisterSections(mem: seq<BasicDesc>, t: MemType, backend: Engine)
      returns (st: Status, batch: seq<SectionDesc>, selfBatch: seq<SectionDesc>)
      requires Valid() && backend in engines
      modifies this, backend
      ensures Valid()
      ensures st == Success ==> |batch| == |mem| && (forall i :: 0 <= i < |mem| ==> batch[i].basic == mem[i])
      ensures st == Success ==>
                |selfBatch| == (if backend.supportsLocal then |mem| else 0)
                && (forall i :: 0 <= i < |selfBatch| ==> selfBatch[i].basic == mem[i])
      ensures st == Success ==> Backed(t, backend, batch) && Looped(backend, batch, selfBatch)
      ensures st == Success ==> Holds(backend, batch, selfBatch, old(backend.live), old(backend.loaded))
      ensures st == Success ==> (t, backend) in sectionMap
      ensures st == Success ==> sectionMap == old(sectionMap)[(t, backend) := sectionMap[(t, backend)]]
      ensures st == Success ==>
                multiset(sectionMap[(t, backend)]) ==
                old(multiset(ListAt(sectionMap, t, backend))) + multiset(NormalizeAll(t, batch))
      ensures st != Success ==> backend.live == old(backend.live) && backend.loaded == old(backend.loaded)
      ensures backend.strays == old(backend.strays)
      ensures st != Success ==>
                sectionMap == old(if (t, backend) in sectionMap then sectionMap else sectionMap[(t, backend) := []])
    {
      hide Metas, Sorted, NoZeroLen, Loaded, Stored, Mirrors, Kept, NormalizeAll, Holds, Backed, Looped;
      Emplace(t, backend);
      st, batch, selfBatch := RegisterAll(t, mem, backend);
      if st != Success {
        RollBack(batch, selfBatch, backend, old(backend.live), old(backend.loaded));
        return;
      }
      HoldsLive(backend, batch, selfBatch, old(backend.live), old(backend.loaded));
      AddSections(t, backend, batch);
    }

    // Merges a batch that the backend has registered already into its list.
    method AddSections(t: MemType, backend: Engine, batch: seq<SectionDesc>)
      requires backend in engines && (t, backend) in sectionMap
      requires Kept(sectionMap, engines) && Mirrors(sectionMap, memToBackend, engines)
      requires Balanced(sectionMap, engines, backend, Metas(batch)) && Backed(t, backend, batch)
      modifies this
      ensures Valid() && (t, backend) in sectionMap
      ensures sectionMap == old(sectionMap)[(t, backend) := sectionMap[(t, backend)]]
      ensures multiset(sectionMap[(t, backend)]) ==
              old(multiset(sectionMap[(t, backend)])) + multiset(NormalizeAll(t, batch))
    {
      hide Metas, Sorted, NoZeroLen, Genuine, Backed, NormalizeAll, Stored, Mirrors, Balanced;
      ghost var before := sectionMap;
      var target := new SecDescList.Of(t, sectionMap[(t, backend)]);
      ghost var _ := target.AddDescs(batch, false);
      MetasNormalized(t, batch);
      MetasUnion(target.descs, sectionMap[(t, backend)], NormalizeAll(t, batch));
      GenuineMerged(t, backend, sectionMap[(t, backend)], batch, target.descs);
      KeptPut(sectionMap, engines, t, backend, target.descs);
      MirrorsPut(sectionMap, memToBackend, engines, t, backend, target.descs);
      sectionMap := sectionMap[(t, backend) := target.descs];
      Settle(before, sectionMap, engines, t, backend, Metas(batch));
    }

    // Stores a list, or takes an empty one out of both maps.
    method PutList(t: MemType, backend: Engine, list: seq<SectionDesc>)
      requires backend in engines && (t, backend) in sectionMap && Sorted(list) && NoZeroLen(t, list)
      requires Genuine(t, backend, list)
      requires Kept(sectionMap, engines) && Mirrors(sectionMap, memToBackend, engines)
      modifies this
      ensures Kept(sectionMap, engines) && Mirrors(sectionMap, memToBackend, engines)
      ensures sectionMap == if list == [] then old(sectionMap) - {(t, backend)}
                            else old(sectionMap)[(t, backend) := list]
    {
      hide Sorted, NoZeroLen, Genuine, Mirrors, Kept;
      if list == [] {
        KeptDrop(sectionMap, engines, (t, backend));
        MirrorsDrop(sectionMap, memToBackend, engines, t, backend);
        sectionMap := sectionMap - {(t, backend)};
        memToBackend := memToBackend[t := BackendsOf(memToBackend, t) - {backend}];
      } else {
        KeptPut(sectionMap, engines, t, backend, list);
        MirrorsPut(sectionMap, memToBackend, engines, t, backend, list);
        sectionMap := sectionMap[(t, backend) := list];
      }
    }

    // Deregisters the sections at some places of a list and strikes them.
    method RemoveAt(t: MemType, backend: Engine, indices: seq<nat>)
      requires Valid() && backend in engines && (t, backend) in sectionMap
      requires Below(indices, |sectionMap[(t, backend)]|)
      modifies this, backend
      ensures Kept(sectionMap, engines) && Mirrors(sectionMap, memToBackend, engines)
      ensures Removal(old(sectionMap[(t, backend)]), sectionMap, t, backend, indices)
      ensures Deregistered(backend, old(backend.live), old(backend.strays),
                           Metas(Named(old(sectionMap[(t, backend)]), indices, |indices|)))
      ensures DistinctInRange(indices, |old(sectionMap[(t, backend)])|) ==>
                Valid() && backend.strays == old(backend.strays)
    {
      hide Metas, Sorted, NoZeroLen, Stored, Mirrors, Compact, Staying, Named;
      ghost var had, before := backend.live, sectionMap;
      var list := sectionMap[(t, backend)];
      ghost var removed := Named(list, indices, |indices|);
      var target := new SecDescList.Of(t, list);
      if DistinctInRange(indices, |list|) { NamedIsStored(sectionMap, t, backend, indices); }
      DeregisterAll(backend, list, indices);
      ghost var order := target.RemDescs(indices);
      StayingWithin(list, indices, |list|);
      PutList(t, backend, target.descs);
      if DistinctInRange(indices, |list|) {
        RemoveConserves(list, indices, order);
        MetasUnion(list, target.descs, removed);
        GivenBack(had, Metas(removed));
        SettleLess(before, sectionMap, engines, t, backend, Metas(removed));
      }
    }

    /**
     Deregisters a list of descriptors: all of them or, when one is missing, none. The list entry
     disappears from both maps with its last section. Distinct descriptors leave the accounts balanced.
     A repeated one has its section deregistered again, while the list loses only the struck places.
     */
    method RemDescList(mem: seq<BasicDesc>, t: MemType, backend: Engine?)
      returns (st: Status, ghost places: seq<nat>, ghost removed: seq<SectionDesc>)
      requires Valid() && (backend != null ==> backend in engines)
      modifies this, backend
      ensures Kept(sectionMap, engines) && Mirrors(sectionMap, memToBackend, engines)
      ensures st != Success || DistinctKeys(t, mem) ==> Valid()
      ensures st in {Success, NotFound, InvalidParam} && (st == InvalidParam <==> backend == null)
      ensures st != Success ==> sectionMap == old(sectionMap) && memToBackend == old(memToBackend)
      ensures st != Success && backend != null ==>
                backend.live == old(backend.live) && backend.strays == old(backend.strays)
      ensures backend != null ==>
                (st == Success
                 <==> (t, backend) in old(sectionMap) && HoldingAll(old(sectionMap[(t, backend)]), t, mem))
      ensures st == Success ==> FirstPlaces(old(sectionMap[(t, backend)]), t, mem, places)
      ensures st == Success ==> removed == Named(old(sectionMap[(t, backend)]), places, |places|)
      ensures st == Success ==> Removal(old(sectionMap[(t, backend)]), sectionMap, t, backend, places)
      ensures st == Success ==> Deregistered(backend, old(backend.live), old(backend.strays), Metas(removed))
      ensures st == Success && DistinctKeys(t, mem) ==>
                && backend.strays == old(backend.strays)
                && multiset(ListAt(sectionMap, t, backend)) + multiset(removed)
                == old(multiset(sectionMap[(t, backend)]))
    {
      hide Metas, Sorted, NoZeroLen, Stored, Mirrors, Balanced, NormalizeQuery, Holding, Staying, HoldingAll, Named,
        DistinctKeys, Deregistered;
      places, removed := [], [];
      if backend == null { return InvalidParam, [], []; }
      if (t, backend) !in sectionMap { return NotFound, [], []; }
      var list := sectionMap[(t, backend)];
      var target := new SecDescList.Of(t, list);
      var ok, indices := FindAll(target, mem);
      if !ok { return NotFound, [], []; }
      places, removed := indices, Named(list, indices, |indices|);
      RemoveAt(t, backend, indices);
      if DistinctKeys(t, mem) { StayingConserves(list, indices); }
      st := Success;
    }

    /**
     serializePartial: what of the section map goes into a partial blob. Backends without a list of the
     type are passed over; a descriptor missing from any other backend's list fails the whole call.
     */
    method SerializePartial(mem: seq<BasicDesc>, t: MemType, backends: set<Engine>)
      returns (st: Status, picked: Sections)
      requires Valid()
      ensures st == Success || st == NotFound
      ensures st == Success <==>
              mem == [] || forall b :: b in backends && (t, b) in sectionMap ==> HoldingAll(sectionMap[(t, b)], t, mem)
      ensures mem == [] ==> picked == map[]
      ensures st == Success && mem != [] ==> forall k :: k in picked <==> k.0 == t && k.1 in backends && k in sectionMap
      ensures st == Success ==>
                forall k :: k in picked ==>
                  k in sectionMap && Sorted(picked[k]) && PartOf(picked[k], sectionMap[k], t, mem)
    {
      hide Sorted, NoZeroLen, Mirrors, Balanced, HoldingAll, PartOf;
      picked := map[];
      if mem == [] { return Success, picked; }
      var rest := backends;
      while rest != {}
        invariant rest <= backends
        invariant forall k :: k in picked <==> k.0 == t && k.1 in backends - rest && k in sectionMap
        invariant forall k :: k in picked ==> Sorted(picked[k]) && PartOf(picked[k], sectionMap[k], t, mem)
        invariant forall b :: b in backends - rest && (t, b) in sectionMap ==> HoldingAll(sectionMap[(t, b)], t, mem)
        decreases |rest|
      {
        var b :| b in rest;
        rest := rest - {b};
        if (t, b) in sectionMap {
          var base := new SecDescList.Of(t, sectionMap[(t, b)]);
          var ok, part := PickPart(base, mem);
          if !ok { return NotFound, map[]; }
          picked := picked[(t, b) := part];
        }
      }
      st := Success;
    }

    // Gives back every section of a list, and takes the list out of both maps.
    method DropList(t: MemType, backend: Engine)
      requires Valid() && backend in engines && (t, backend) in sectionMap
      modifies this, backend
      ensures Valid() && sectionMap == old(sectionMap) - {(t, backend)} && backend.strays == old(backend.strays)
    {
      hide Metas, Sorted, NoZeroLen, Stored, Mirrors, Kept, Named;
      ghost var before := sectionMap;
      var list := sectionMap[(t, backend)];
      NamedEvery(list);
      NamedIsStored(sectionMap, t, backend, Every(|list|));
      DeregisterAll(backend, list, Every(|list|));
      SortedNone(t);
      PutList(t, backend, []);
      GivenBack(Stored(before, backend), Metas(list));
      AllGone(Metas(list));
      SettleLess(before, sectionMap, engines, t, backend, Metas(list));
    }

    /** The destructor: every registration is given back, to every backend. */
    method Destroy()
      requires Valid()
      modifies this, engines
      ensures sectionMap == map[]
      ensures forall e :: e in engines ==> e.live == multiset{} && e.strays == old(e.strays)
    {
      hide Sorted, NoZeroLen, Stored, Mirrors;
      while sectionMap != map[]
        invariant Valid() && forall e :: e in engines ==> e.strays == old(e.strays)
        decreases |sectionMap|
      {
        var k :| k in sectionMap;
        DropList(k.0, k.1);
      }
      forall e | e in engines ensures e.live == multiset{} {
        NothingStored(e);
      }
    }
  }

  // Every index of a list.
  function Every(n: nat): (ixs: seq<nat>)
    ensures |ixs| == n && forall i :: 0 <= i < n ==> ixs[i] == i
  {
    seq(n, i requires 0 <= i < n => i)
  }

  lemma HoldsLive(backend: Engine, local: seq<SectionDesc>, self: seq<SectionDesc>, live: multiset<Meta>,
                  loaded: multiset<Meta>)
    requires |self| == if backend.supportsLocal then |local| else 0
    requires Holds(backend, local, self, live, loaded)
    ensures backend.live == live + Metas(local)
  {
  }

  lemma NamedEvery(list: seq<SectionDesc>)
    ensures Named(list, Every(|list|), |list|) == list && DistinctInRange(Every(|list|), |list|)
  {
  }

  lemma AllGone(m: multiset<Meta>)
    ensures m == Metas([]) + m
  {
  }

  lemma NothingStored(e: Engine)
    ensures Stored(map[], e) == multiset{}
  {
    StoredNone(e, ALL_TYPES);
  }

  lemma NormalizeNone(t: MemType)
    ensures NormalizeAll(t, []) == []
  {
  }

  lemma SortedNone(t: MemType)
    ensures Sorted([]) && NoZeroLen(t, [])
  {
  }

  // Nothing on top at any backend is nothing on top at this one.
  lemma Excess(m: Sections, engines: set<Engine>, backend: Engine)
    requires Balanced(m, engines, null, multiset{})
    ensures Balanced(m, engines, backend, multiset{})
  {
    assert Stored(m, backend) + multiset{} == Stored(m, backend);
  }

  lemma SettleLess(m: Sections, m': Sections, engines: set<Engine>, t: MemType, backend: Engine, less: multiset<Meta>)
    requires forall e :: e in engines && e != backend ==> e.live == Stored(m, e)
    requires Stored(m, backend) == backend.live + less
    requires Changed(m, m', t, backend) && Metas(ListAt(m, t, backend)) == Metas(ListAt(m', t, backend)) + less
    requires backend in engines
    ensures Balanced(m', engines, null, multiset{})
  {
    hide Metas, ListAt, Stored, Changed;
    ChangedBack(m, m', t, backend);
    forall t' | t' != t
      ensures ListAt(m, t', backend) == ListAt(m', t', backend)
    {
      ChangedLists(m, m', t, backend, t', backend);
    }
    StoredGrow(m', m, t, backend, less);
    CancelAll(backend.live, Stored(m', backend), less);
    forall e | e in engines ensures e.live == Stored(m', e) {
      if e != backend { StoredElsewhere(m, m', t, backend, e); }
    }
  }

  lemma ChangedBack(m: Sections, m': Sections, t: MemType, e: Engine)
    requires Changed(m, m', t, e)
    ensures Changed(m', m, t, e)
  {
  }
}
