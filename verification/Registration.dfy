/**
 nixlLocalSection: registering descriptor lists with a backend, all or nothing, and deregistering
 them. The backend is a party of its own: it may refuse any call, and it keeps its own account of the
 metadata objects it handed out.
 */
module Registration {
  import opened Descriptors
  import opened SectionList
  import opened SecDescLists

  // The metadata objects of a list.
  function Metas(s: seq<SectionDesc>): multiset<Meta> {
    if s == [] then multiset{} else Metas(s[..|s| - 1]) + multiset{s[|s| - 1].meta}
  }

  lemma MetasLast(s: seq<SectionDesc>, d: SectionDesc)
    ensures Metas(s + [d]) == Metas(s) + multiset{d.meta}
  {
    assert (s + [d])[..|s|] == s;
  }

  lemma {:induction false} MetasConcat(a: seq<SectionDesc>, b: seq<SectionDesc>)
    ensures Metas(a + b) == Metas(a) + Metas(b)
    decreases |b|
  {
    if b == [] {
      assert a + b == a;
    } else {
      hide Metas;
      var n := |b| - 1;
      assert b == b[..n] + [b[n]] && a + b == (a + b[..n]) + [b[n]];
      MetasConcat(a, b[..n]);
      MetasLast(b[..n], b[n]);
      MetasLast(a + b[..n], b[n]);
    }
  }

  lemma MetasOne(d: SectionDesc)
    ensures Metas([d]) == multiset{d.meta}
  {
    assert [d][..0] == [];
  }

  lemma Swap(a: multiset<Meta>, b: multiset<Meta>, c: multiset<Meta>)
    ensures a + b + c == a + c + b
  {
  }

  lemma MetasWithout(s: seq<SectionDesc>, k: nat)
    requires k < |s|
    ensures Metas(s) == Metas(Without(s, k)) + multiset{s[k].meta}
  {
    hide Metas;
    assert s == s[..k] + [s[k]] + s[k + 1..];
    MetasConcat(s[..k] + [s[k]], s[k + 1..]);
    MetasConcat(s[..k], [s[k]]);
    MetasConcat(s[..k], s[k + 1..]);
    MetasOne(s[k]);
    Swap(Metas(s[..k]), multiset{s[k].meta}, Metas(s[k + 1..]));
  }

  lemma {:induction false} MetasPermuted(c: seq<SectionDesc>, d: seq<SectionDesc>)
    requires multiset(c) == multiset(d)
    ensures Metas(c) == Metas(d)
    decreases |c|
  {
    hide Without, Metas;
    if c == [] || d == [] {
      assert |multiset(c)| == |c| && |multiset(d)| == |d|;
    } else {
      assert c[0] in multiset(d);
      var k :| 0 <= k < |d| && d[k] == c[0];
      WithoutEqual(c, 0, d, k);
      WithoutSize(c, 0);
      MetasPermuted(Without(c, 0), Without(d, k));
      MetasWithout(c, 0);
      MetasWithout(d, k);
    }
  }

  /** The metadata of a list depends only on which descriptors it holds. */
  lemma MetasUnion(c: seq<SectionDesc>, a: seq<SectionDesc>, b: seq<SectionDesc>)
    requires multiset(c) == multiset(a) + multiset(b)
    ensures Metas(c) == Metas(a) + Metas(b)
  {
    MetasPermuted(c, a + b);
    MetasConcat(a, b);
  }

  /** A backend engine: which metadata objects it has registered and which it has loaded. */
  class Engine {
    const supportsLocal: bool
    const supportsRemote: bool
    // what each of its metadata objects stands for: the registered range, the object a loopback one was
    // loaded from, and the public data
    const registeredFor: Meta -> (MemType, BasicDesc)
    const loadedFrom: Meta -> Meta
    const publicData: Meta -> Blob
    ghost var live: multiset<Meta>
    ghost var loaded: multiset<Meta>
    // what it was asked to deregister without having it registered
    ghost var strays: multiset<Meta>

    constructor (local: bool, remote: bool, registeredFor: Meta -> (MemType, BasicDesc), loadedFrom: Meta -> Meta,
                 publicData: Meta -> Blob)
      ensures supportsLocal == local && supportsRemote == remote
      ensures this.registeredFor == registeredFor && this.loadedFrom == loadedFrom && this.publicData == publicData
      ensures live == multiset{} && loaded == multiset{} && strays == multiset{}
    {
      supportsLocal, supportsRemote := local, remote;
      this.registeredFor, this.loadedFrom, this.publicData := registeredFor, loadedFrom, publicData;
      live, loaded, strays := multiset{}, multiset{}, multiset{};
    }

    method RegisterMem(t: MemType, mem: BasicDesc) returns (st: Status, md: Meta)
      modifies this
      ensures loaded == old(loaded) && strays == old(strays)
      ensures st == Success ==> registeredFor(md) == (t, mem)
      ensures live == if st == Success then old(live) + multiset{md} else old(live)
    {
      st, md := *, *;
      if registeredFor(md) != (t, mem) { st := BackendError; }
      if st == Success { live := live + multiset{md}; }
    }

    // Deregistering an object that is not registered is a misuse, and is noted as one.
    method DeregisterMem(md: Meta)
      modifies this
      ensures loaded == old(loaded) && live == old(live) - multiset{md}
      ensures strays == if md in old(live) then old(strays) else old(strays) + multiset{md}
    {
      strays := if md in live then strays else strays + multiset{md};
      live := live - multiset{md};
    }

    // May hand out the same object for both sides of a transfer, or a new one.
    method LoadLocalMD(md: Meta) returns (st: Status, self: Meta)
      modifies this
      ensures live == old(live) && strays == old(strays)
      ensures st == Success ==> LoopbackOf(self, md)
      ensures loaded == if st == Success && self != md then old(loaded) + multiset{self} else old(loaded)
    {
      st, self := *, *;
      if !LoopbackOf(self, md) { st := BackendError; }
      if st == Success && self != md { loaded := loaded + multiset{self}; }
    }

    method UnloadMD(md: Meta)
      requires md in loaded
      modifies this
      ensures live == old(live) && loaded == old(loaded) - multiset{md} && strays == old(strays)
    {
      loaded := loaded - multiset{md};
    }

    method GetPublicData(md: Meta) returns (st: Status, blob: Blob)
      ensures st == Success ==> blob == publicData(md)
    {
      st, blob := *, publicData(md);
    }

    predicate LoopbackOf(self: Meta, md: Meta) {
      self == md || loadedFrom(self) == md
    }

    // What a section carries for other agents: the public data of its metadata, or nothing.
    function PublicOf(md: Meta): Blob {
      if supportsRemote then publicData(md) else []
    }
  }

  // Every section carries metadata that was registered for its range, and the public data of that.
  ghost predicate Genuine(t: MemType, backend: Engine, s: seq<SectionDesc>) {
    forall x :: x in s ==> IsGenuine(t, backend, x)
  }

  ghost predicate IsGenuine(t: MemType, backend: Engine, x: SectionDesc) {
    var (t', range) := backend.registeredFor(x.meta);
    t' == t && x.basic == NormalizeQuery(t, range) && x.blob == backend.PublicOf(x.meta)
  }

  // The loaded objects of a batch: one per element that got its own object for the self side.
  function Loaded(local: seq<SectionDesc>, self: seq<SectionDesc>): multiset<Meta>
    requires |self| == |local|
  {
    if local == [] then multiset{}
    else
      var n := |local| - 1;
      Loaded(local[..n], self[..n]) + LoadedOne(local[n], self[n])
  }

  function LoadedOne(local: SectionDesc, self: SectionDesc): multiset<Meta> {
    if self.meta != local.meta then multiset{self.meta} else multiset{}
  }

  // What the backend holds on behalf of a batch.
  ghost predicate Holds(backend: Engine, local: seq<SectionDesc>, self: seq<SectionDesc>, live: multiset<Meta>,
                        loaded: multiset<Meta>)
    requires |self| == if backend.supportsLocal then |local| else 0
    reads backend
  {
    && backend.live == live + Metas(local)
    && backend.loaded == loaded + if backend.supportsLocal then Loaded(local, self) else multiset{}
  }

  lemma HoldsNext(local: seq<SectionDesc>, self: seq<SectionDesc>, d: SectionDesc, e: SectionDesc, both: bool,
                  live: multiset<Meta>, loaded: multiset<Meta>)
    requires |self| == if both then |local| else 0
    ensures live + Metas(local) + multiset{d.meta} == live + Metas(local + [d])
    ensures both ==> loaded + Loaded(local, self) + LoadedOne(d, e) == loaded + Loaded(local + [d], self + [e])
  {
    hide LoadedOne;
    assert (local + [d])[..|local|] == local && (self + [e])[..|self|] == self;
    PlusAssoc(live, Metas(local), multiset{d.meta});
    if both { PlusAssoc(loaded, Loaded(local, self), LoadedOne(d, e)); }
  }

  lemma TakeBack(a: multiset<Meta>, md: Meta)
    ensures a + multiset{md} - multiset{md} == a
  {
  }

  // One element: registered, loaded for the self side and published, or nothing at all.
  method RegisterOne(t: MemType, mem: BasicDesc, backend: Engine)
    returns (st: Status, local: SectionDesc, self: SectionDesc)
    modifies backend
    ensures local.basic == mem && self.basic == mem && backend.strays == old(backend.strays)
    ensures st == Success ==> backend.live == old(backend.live) + multiset{local.meta}
    ensures st == Success ==>
              && backend.registeredFor(local.meta) == (t, mem) && local.blob == backend.PublicOf(local.meta)
              && (backend.supportsLocal ==> backend.LoopbackOf(self.meta, local.meta)) && self.blob == []
    ensures st == Success && backend.supportsLocal ==> backend.loaded == old(backend.loaded) + LoadedOne(local, self)
    ensures st == Success && !backend.supportsLocal ==> backend.loaded == old(backend.loaded)
    ensures st != Success ==> backend.live == old(backend.live) && backend.loaded == old(backend.loaded)
  {
    var md, selfMd, blob := 0, 0, [];
    local, self := SectionDesc(mem, md, blob), SectionDesc(mem, selfMd, []);
    st, md := backend.RegisterMem(t, mem);
    if st != Success { return; }
    TakeBack(old(backend.live), md);
    if backend.supportsLocal {
      st, selfMd := backend.LoadLocalMD(md);
      if st != Success {
        backend.DeregisterMem(md);
        return;
      }
    }
    TakeBack(old(backend.loaded), selfMd);
    if backend.supportsRemote {
      st, blob := backend.GetPublicData(md);
      if st != Success {
        if backend.supportsLocal && selfMd != md { backend.UnloadMD(selfMd); }
        backend.DeregisterMem(md);
        return;
      }
    }
    local, self := SectionDesc(mem, md, blob), SectionDesc(mem, selfMd, []);
  }

  // The metadata of a batch was registered for its descriptors, and the batch carries the public data of it.
  ghost predicate Backed(t: MemType, backend: Engine, local: seq<SectionDesc>) {
    forall i :: 0 <= i < |local| ==>
      backend.registeredFor(local[i].meta) == (t, local[i].basic) && local[i].blob == backend.PublicOf(local[i].meta)
  }

  // The metadata of the self side is that of the local side, or was loaded from it.
  ghost predicate Looped(backend: Engine, local: seq<SectionDesc>, self: seq<SectionDesc>) {
    && |self| == (if backend.supportsLocal then |local| else 0)
    && forall i :: 0 <= i < |self| ==> backend.LoopbackOf(self[i].meta, local[i].meta) && self[i].blob == []
  }

  lemma StandsNext(t: MemType, backend: Engine, local: seq<SectionDesc>, self: seq<SectionDesc>, d: SectionDesc,
                   e: SectionDesc)
    requires Backed(t, backend, local) && Looped(backend, local, self)
    requires backend.registeredFor(d.meta) == (t, d.basic) && d.blob == backend.PublicOf(d.meta)
    requires backend.supportsLocal ==> backend.LoopbackOf(e.meta, d.meta) && e.blob == []
    ensures Backed(t, backend, local + [d])
    ensures Looped(backend, local + [d], if backend.supportsLocal then self + [e] else self)
  {
  }

  lemma NoneStands(t: MemType, backend: Engine)
    ensures Backed(t, backend, []) && Looped(backend, [], [])
  {
  }

  method RegisterAll(t: MemType, mem: seq<BasicDesc>, backend: Engine)
    returns (st: Status, local: seq<SectionDesc>, self: seq<SectionDesc>)
    modifies backend
    ensures |local| <= |mem| && (st == Success ==> |local| == |mem|)
    ensures |self| == if backend.supportsLocal then |local| else 0
    ensures forall i :: 0 <= i < |local| ==> local[i].basic == mem[i]
    ensures forall i :: 0 <= i < |self| ==> self[i].basic == mem[i]
    ensures Backed(t, backend, local) && Looped(backend, local, self)
    ensures Holds(backend, local, self, old(backend.live), old(backend.loaded)) && backend.strays == old(backend.strays)
  {
    hide Metas, Loaded, LoadedOne, Backed, Looped;
    st, local, self := Success, [], [];
    assert Backed(t, backend, []) && Looped(backend, [], []) by { NoneStands(t, backend); }
    MetasNone();
    while |local| < |mem|
      invariant |local| <= |mem| && |self| == if backend.supportsLocal then |local| else 0
      invariant forall i :: 0 <= i < |local| ==> local[i].basic == mem[i]
      invariant forall i :: 0 <= i < |self| ==> self[i].basic == mem[i]
      invariant Backed(t, backend, local) && Looped(backend, local, self)
      invariant Holds(backend, local, self, old(backend.live), old(backend.loaded)) && st == Success
      invariant backend.strays == old(backend.strays)
      decreases |mem| - |local|
    {
      var d, e;
      st, d, e := RegisterOne(t, mem[|local|], backend);
      if st != Success { break; }
      StandsNext(t, backend, local, self, d, e);
      HoldsNext(local, self, d, e, backend.supportsLocal, old(backend.live), old(backend.loaded));
      if backend.supportsLocal { self := self + [e]; }
      local := local + [d];
    }
  }

  lemma PlusAssoc(a: multiset<Meta>, b: multiset<Meta>, c: multiset<Meta>)
    ensures a + b + c == a + (b + c)
  {
  }

  lemma MetasSuffix(s: seq<SectionDesc>, j: nat)
    requires j < |s|
    ensures Metas(s[j..]) == multiset{s[j].meta} + Metas(s[j + 1..])
  {
    hide Metas;
    assert s[j..] == [s[j]] + s[j + 1..];
    MetasConcat([s[j]], s[j + 1..]);
    MetasOne(s[j]);
  }

  lemma {:induction false} LoadedSuffix(local: seq<SectionDesc>, self: seq<SectionDesc>, j: nat)
    requires |local| == |self| && j < |local|
    ensures Loaded(local[j..], self[j..]) == LoadedOne(local[j], self[j]) + Loaded(local[j + 1..], self[j + 1..])
    decreases |local|
  {
    hide LoadedOne;
    var n := |local| - 1;
    assert local[j..][..n - j] == local[..n][j..] && self[j..][..n - j] == self[..n][j..];
    if j < n {
      LoadedSuffix(local[..n], self[..n], j);
      assert local[j + 1..][..n - j - 1] == local[..n][j + 1..] && self[j + 1..][..n - j - 1] == self[..n][j + 1..];
      PlusAssoc(LoadedOne(local[j], self[j]), Loaded(local[..n][j + 1..], self[..n][j + 1..]),
                LoadedOne(local[n], self[n]));
    }
  }

  // Undoing a partial batch.
  method RollBack(local: seq<SectionDesc>, self: seq<SectionDesc>, backend: Engine, ghost live: multiset<Meta>,
                  ghost loaded: multiset<Meta>)
    requires |self| == if backend.supportsLocal then |local| else 0
    requires Holds(backend, local, self, live, loaded)
    modifies backend
    ensures backend.live == live && backend.loaded == loaded && backend.strays == old(backend.strays)
  {
    hide Metas, Loaded, LoadedOne;
    MetasNone();
    assert local[0..] == local && self[0..] == self;
    for j := 0 to |local|
      invariant backend.live == live + Metas(local[j..]) && backend.strays == old(backend.strays)
      invariant backend.loaded == loaded + if backend.supportsLocal then Loaded(local[j..], self[j..]) else multiset{}
    {
      if backend.supportsLocal {
        LoadedSuffix(local, self, j);
        DropPart(loaded, LoadedOne(local[j], self[j]), Loaded(local[j + 1..], self[j + 1..]));
        UnloadOne(local[j], self[j], backend);
      }
      MetasSuffix(local, j);
      DropPart(live, multiset{local[j].meta}, Metas(local[j + 1..]));
      backend.DeregisterMem(local[j].meta);
    }
    assert local[|local|..] == [] && (backend.supportsLocal ==> self[|local|..] == []);
    assert live + multiset{} == live && loaded + multiset{} == loaded;
  }

  method UnloadOne(local: SectionDesc, self: SectionDesc, backend: Engine)
    requires LoadedOne(local, self) <= backend.loaded
    modifies backend
    ensures backend.live == old(backend.live) && backend.loaded == old(backend.loaded) - LoadedOne(local, self)
    ensures backend.strays == old(backend.strays)
  {
    if self.meta != local.meta { backend.UnloadMD(self.meta); }
  }

  lemma DropPart(rest: multiset<Meta>, part: multiset<Meta>, tail: multiset<Meta>)
    ensures part <= rest + (part + tail) && rest + (part + tail) - part == rest + tail
  {
  }

  lemma MetasNone()
    ensures Metas([]) == multiset{} && Loaded([], []) == multiset{}
  {
  }
}
