/**
 nixlRemoteSection: loading a remote's serialized section lists. Descriptors that are there already
 with the same public metadata are skipped, so that reloads and partial updates accumulate.

 `load` stands for the backends' loadRemoteMD: per descriptor it yields a metadata object or refuses.
 */
module RemoteSections {
  import opened Descriptors
  import opened Coverage
  import opened SectionList
  import opened MetadataBlob

  datatype Answer = Loaded(meta: Meta) | Refused(st: Failure)
  type Loader = BlobDesc -> Answer
  datatype Outcome<T> = Done(value: T) | Error(st: Failure)

  // ---- One list ----

  // One descriptor: loaded and inserted if it is new, skipped if it is there, refused on a conflict.
  function AddOne(t: MemType, list: seq<SectionDesc>, d: BlobDesc, load: Loader): Outcome<seq<SectionDesc>> {
    var q := NormalizeQuery(t, d.basic);
    var at := LowerBound(list, q);
    if at == |list| || list[at].basic != q then
      match load(d)
      case Refused(st) => Error(st)
      case Loaded(meta) => Done(Insert(list, Normalize(t, SectionDesc(d.basic, meta, d.info))))
    else if list[at].blob != d.info then Error(NotAllowed)
    else Done(list)
  }

  function AddAll(t: MemType, list: seq<SectionDesc>, descs: seq<BlobDesc>, load: Loader): Outcome<seq<SectionDesc>>
    decreases |descs|
  {
    if descs == [] then Done(list)
    else
      match AddOne(t, list, descs[0], load)
      case Error(st) => Error(st)
      case Done(l) => AddAll(t, l, descs[1..], load)
  }

  // The section a descriptor becomes when it is loaded.
  function Sec(d: BlobDesc, load: Loader): SectionDesc {
    SectionDesc(d.basic, if load(d).Loaded? then load(d).meta else 0, d.info)
  }

  function Content(x: SectionDesc): BlobDesc {
    BlobDesc(x.basic, x.blob)
  }

  // Sorted without repeated keys.
  ghost predicate Strict(s: seq<SectionDesc>) {
    forall i, j :: 0 <= i < j < |s| ==> Less(s[i].basic, s[j].basic)
  }

  // Every section is what its content is loaded as.
  ghost predicate FromLoader(s: seq<SectionDesc>, load: Loader) {
    forall i :: 0 <= i < |s| ==> s[i] == Sec(Content(s[i]), load)
  }

  // Descriptors as section lists hold them, all of which the backends accept.
  ghost predicate Loadable(t: MemType, descs: seq<BlobDesc>, load: Loader) {
    forall i :: 0 <= i < |descs| ==> NormalizeQuery(t, descs[i].basic) == descs[i].basic && load(descs[i]).Loaded?
  }

  // No section and descriptor disagree about the metadata of one range.
  ghost predicate Compatible(s: seq<SectionDesc>, d: BlobDesc) {
    forall i :: 0 <= i < |s| && s[i].basic == d.basic ==> s[i].blob == d.info
  }

  ghost predicate Coherent(descs: seq<BlobDesc>) {
    forall i, j :: 0 <= i < j < |descs| && descs[i].basic == descs[j].basic ==> descs[i].info == descs[j].info
  }

  function Elems(s: seq<SectionDesc>): set<SectionDesc> {
    set x | x in s
  }

  function Secs(descs: seq<BlobDesc>, load: Loader): (r: seq<SectionDesc>)
    ensures |r| == |descs| && forall i :: 0 <= i < |descs| ==> r[i] == Sec(descs[i], load)
  {
    seq(|descs|, i requires 0 <= i < |descs| => Sec(descs[i], load))
  }

  // In a strict list a key is at its lower bound or nowhere.
  lemma FoundAtLowerBound(s: seq<SectionDesc>, q: BasicDesc, i: nat)
    requires Strict(s) && i < |s| && s[i].basic == q
    ensures LowerBound(s, q) == i
  {
  }

  lemma StrictInsert(s: seq<SectionDesc>, d: SectionDesc)
    requires Strict(s) && forall i :: 0 <= i < |s| ==> s[i].basic != d.basic
    ensures Strict(Insert(s, d))
  {
    hide Less, UpperBound;
    var u := UpperBound(s, d.basic);
    var r := Insert(s, d);
    forall i, j | 0 <= i < j < |r| ensures Less(r[i].basic, r[j].basic) {
      if i == u {
        assert r[j] == s[j - 1];
        LessChain(d.basic, s[u].basic, s[j - 1].basic);
      } else if j == u {
        assert r[i] == s[i];
        LessTotal(s[i].basic, d.basic);
      } else {
        assert r[i] == s[if i < u then i else i - 1] && r[j] == s[if j < u then j else j - 1];
      }
    }
  }

  lemma LessChain(x: BasicDesc, y: BasicDesc, z: BasicDesc)
    requires Less(x, y) && (y == z || Less(y, z))
    ensures Less(x, z)
  {
  }

  lemma LessTotal(x: BasicDesc, y: BasicDesc)
    requires x != y && !Less(y, x)
    ensures Less(x, y)
  {
  }

  lemma InsertElems(s: seq<SectionDesc>, d: SectionDesc)
    ensures Elems(Insert(s, d)) == Elems(s) + {d}
  {
    var u := UpperBound(s, d.basic);
    var r := Insert(s, d);
    assert s == s[..u] + s[u..];
    forall x ensures x in r <==> x in s || x == d {
      assert x in s <==> x in s[..u] || x in s[u..];
    }
  }

  /** What loading one descriptor does to a list. */
  lemma AddOneIs(t: MemType, list: seq<SectionDesc>, d: BlobDesc, load: Loader)
    requires Strict(list) && FromLoader(list, load) && NormalizeQuery(t, d.basic) == d.basic && load(d).Loaded?
    ensures AddOne(t, list, d, load).Done? <==> Compatible(list, d)
    ensures AddOne(t, list, d, load).Done? ==>
              var r := AddOne(t, list, d, load).value;
              Strict(r) && FromLoader(r, load) && Elems(r) == Elems(list) + {Sec(d, load)}
    ensures Sec(d, load) in list ==> AddOne(t, list, d, load) == Done(list)
  {
    hide UpperBound, Insert;
    var at := LowerBound(list, d.basic);
    if i :| 0 <= i < |list| && list[i].basic == d.basic {
      FoundAtLowerBound(list, d.basic, i);
      assert forall j :: 0 <= j < |list| && list[j].basic == d.basic ==> j == i by {
        forall j | 0 <= j < |list| && list[j].basic == d.basic ensures j == i { FoundAtLowerBound(list, d.basic, j); }
      }
      if list[i].blob == d.info { assert list[i] == Sec(d, load); }
    } else {
      var x := Sec(d, load);
      assert Normalize(t, SectionDesc(d.basic, load(d).meta, d.info)) == x;
      StrictInsert(list, x);
      InsertElems(list, x);
      FromLoaderGrows(list, Insert(list, x), x, load);
    }
  }

  lemma FromLoaderGrows(s: seq<SectionDesc>, r: seq<SectionDesc>, x: SectionDesc, load: Loader)
    requires FromLoader(s, load) && x == Sec(Content(x), load) && Elems(r) == Elems(s) + {x}
    ensures FromLoader(r, load)
  {
    forall i | 0 <= i < |r| ensures r[i] == Sec(Content(r[i]), load) {
      assert r[i] in Elems(r);
    }
  }

  lemma CompatibleElems(s: seq<SectionDesc>, r: seq<SectionDesc>, e: BlobDesc, d: BlobDesc, load: Loader)
    requires Elems(r) == Elems(s) + {Sec(e, load)}
    ensures Compatible(r, d) <==> Compatible(s, d) && (e.basic == d.basic ==> e.info == d.info)
  {
    if Compatible(r, d) {
      forall i | 0 <= i < |s| && s[i].basic == d.basic ensures s[i].blob == d.info {
        assert s[i] in Elems(r);
        var j :| 0 <= j < |r| && r[j] == s[i];
      }
      assert Sec(e, load) in Elems(r);
      var j :| 0 <= j < |r| && r[j] == Sec(e, load);
    } else {
      var i :| 0 <= i < |r| && r[i].basic == d.basic && r[i].blob != d.info;
      assert r[i] in Elems(r);
      if r[i] != Sec(e, load) {
        var j :| 0 <= j < |s| && s[j] == r[i];
      }
    }
  }

  /**
   Loading a list of descriptors succeeds exactly when none conflicts with the list or with another of
   them, and then the list holds what it held together with the loaded descriptors, each range once.
   */
  lemma {:induction false} AddAllIs(t: MemType, list: seq<SectionDesc>, descs: seq<BlobDesc>, load: Loader)
    requires Strict(list) && FromLoader(list, load) && Loadable(t, descs, load)
    ensures AddAll(t, list, descs, load).Done?
            <==> Coherent(descs) && forall i :: 0 <= i < |descs| ==> Compatible(list, descs[i])
    ensures AddAll(t, list, descs, load).Done? ==>
              var r := AddAll(t, list, descs, load).value;
              Strict(r) && FromLoader(r, load) && Elems(r) == Elems(list) + Elems(Secs(descs, load))
    decreases |descs|
  {
    hide Strict, FromLoader, Compatible, AddOne;
    if descs == [] {
      assert Secs(descs, load) == [];
    } else {
      var d, rest := descs[0], descs[1..];
      assert Loadable(t, rest, load);
      AddOneIs(t, list, d, load);
      var one := AddOne(t, list, d, load);
      if one.Done? {
        AddAllIs(t, one.value, rest, load);
        forall i | 0 <= i < |rest|
          ensures Compatible(one.value, rest[i])
                  <==> Compatible(list, rest[i]) && (d.basic == rest[i].basic ==> d.info == rest[i].info)
        {
          CompatibleElems(list, one.value, d, rest[i], load);
        }
        CoherentCons(descs);
        SecsCons(descs, load);
        CompatibleCons(list, descs);
      }
    }
  }

  ghost predicate AgreesWith(d: BlobDesc, descs: seq<BlobDesc>) {
    forall i :: 0 <= i < |descs| && d.basic == descs[i].basic ==> d.info == descs[i].info
  }

  lemma CoherentCons(descs: seq<BlobDesc>)
    requires descs != []
    ensures Coherent(descs) <==> Coherent(descs[1..]) && AgreesWith(descs[0], descs[1..])
  {
    var rest := descs[1..];
    assert forall i :: 0 <= i < |rest| ==> rest[i] == descs[i + 1];
    if Coherent(rest) && AgreesWith(descs[0], rest) {
      forall i, j | 0 <= i < j < |descs| && descs[i].basic == descs[j].basic ensures descs[i].info == descs[j].info {
        assert descs[j] == rest[j - 1];
        if i > 0 { assert descs[i] == rest[i - 1]; }
      }
    }
  }

  lemma SecsCons(descs: seq<BlobDesc>, load: Loader)
    requires descs != []
    ensures Elems(Secs(descs, load)) == {Sec(descs[0], load)} + Elems(Secs(descs[1..], load))
  {
    assert Secs(descs, load) == [Sec(descs[0], load)] + Secs(descs[1..], load);
  }

  lemma CompatibleCons(list: seq<SectionDesc>, descs: seq<BlobDesc>)
    requires descs != [] && Compatible(list, descs[0])
    ensures (forall i :: 0 <= i < |descs| ==> Compatible(list, descs[i]))
            <==> (forall i :: 0 <= i < |descs| - 1 ==> Compatible(list, descs[1..][i]))
  {
    var rest := descs[1..];
    assert forall i :: 0 <= i < |rest| ==> rest[i] == descs[i + 1];
    if forall i :: 0 <= i < |rest| ==> Compatible(list, rest[i]) {
      forall i | 0 <= i < |descs| ensures Compatible(list, descs[i]) {
        if i > 0 { assert descs[i] == rest[i - 1]; }
      }
    }
  }

  /** A list without repeated keys is determined by what it holds. */
  lemma {:induction false} StrictUnique(a: seq<SectionDesc>, b: seq<SectionDesc>)
    requires Strict(a) && Strict(b) && Elems(a) == Elems(b)
    ensures a == b
    decreases |a|
  {
    SameEmpty(a, b);
    if a != [] {
      assert a[0] in Elems(b) && b[0] in Elems(a);
      FirstAgree(a, b);
      var a', b' := a[1..], b[1..];
      forall x ensures x in a' <==> x in b' {
        TailElems(a, x);
        TailElems(b, x);
        assert x in Elems(a) <==> x in Elems(b);
      }
      assert Elems(a') == Elems(b');
      StrictUnique(a', b');
      assert a == [a[0]] + a' && b == [b[0]] + b';
    }
  }

  lemma SameEmpty(a: seq<SectionDesc>, b: seq<SectionDesc>)
    requires Elems(a) == Elems(b)
    ensures a == [] <==> b == []
  {
    if a != [] { assert a[0] in Elems(a); }
    if b != [] { assert b[0] in Elems(b); }
  }

  lemma FirstAgree(a: seq<SectionDesc>, b: seq<SectionDesc>)
    requires Strict(a) && Strict(b) && a != [] && b != [] && a[0] in b && b[0] in a
    ensures a[0] == b[0]
  {
    var i :| 0 <= i < |b| && b[i] == a[0];
    var j :| 0 <= j < |a| && a[j] == b[0];
    assert i > 0 ==> Less(b[0].basic, b[i].basic);
    assert j > 0 ==> Less(a[0].basic, a[j].basic);
  }

  lemma TailElems(a: seq<SectionDesc>, x: SectionDesc)
    requires Strict(a) && a != []
    ensures x in a[1..] <==> x in a && x != a[0]
  {
    assert a == [a[0]] + a[1..];
    assert forall i :: 0 <= i < |a[1..]| ==> Less(a[0].basic, a[1..][i].basic);
  }

  // ---- The section map ----

  type Key = (MemType, Blob)
  type Remote = map<Key, seq<SectionDesc>>
  type Loaders = Key -> Loader

  // The agent's backends by name, and whether each takes remote metadata.
  type Backends = map<Blob, bool>

  function KeyOf(e: Entry): Key {
    (e.t, e.backend)
  }

  function At(m: Remote, k: Key): seq<SectionDesc> {
    if k in m then m[k] else []
  }

  // loadRemoteData over the entries of a metadata blob; those of unknown backends are skipped.
  function LoadEntries(known: Backends, m: Remote, entries: seq<Entry>, loaders: Loaders): Outcome<Remote>
    decreases |entries|
  {
    if entries == [] then Done(m)
    else
      var e := entries[0];
      if e.backend !in known then LoadEntries(known, m, entries[1..], loaders)
      else if !known[e.backend] then Error(Unknown)
      else
        match AddAll(e.t, At(m, KeyOf(e)), e.descs, loaders(KeyOf(e)))
        case Error(st) => Error(st)
        case Done(l) => LoadEntries(known, m[KeyOf(e) := l], entries[1..], loaders)
  }

  // All descriptors that the entries hold for one list.
  function DescsFor(known: Backends, entries: seq<Entry>, k: Key): seq<BlobDesc> {
    if entries == [] then []
    else
      (if entries[0].backend in known && KeyOf(entries[0]) == k then entries[0].descs else [])
      + DescsFor(known, entries[1..], k)
  }

  function KeysOf(known: Backends, entries: seq<Entry>): set<Key> {
    set e | e in entries && e.backend in known :: KeyOf(e)
  }

  ghost predicate RemoteCapable(known: Backends, entries: seq<Entry>) {
    forall i :: 0 <= i < |entries| && entries[i].backend in known ==> known[entries[i].backend]
  }

  ghost predicate Held(m: Remote, loaders: Loaders) {
    forall k :: Strict(At(m, k)) && FromLoader(At(m, k), loaders(k))
  }

  ghost predicate AllLoadable(known: Backends, entries: seq<Entry>, loaders: Loaders) {
    forall k: Key :: Loadable(k.0, DescsFor(known, entries, k), loaders(k))
  }

  // What loading the entries does to one list.
  function ListFor(known: Backends, m: Remote, entries: seq<Entry>, loaders: Loaders, k: Key)
    : Outcome<seq<SectionDesc>>
  {
    AddAll(k.0, At(m, k), DescsFor(known, entries, k), loaders(k))
  }

  lemma {:induction false} AddAllAppend(t: MemType, list: seq<SectionDesc>, a: seq<BlobDesc>, b: seq<BlobDesc>,
                                        load: Loader)
    ensures AddAll(t, list, a + b, load) ==
            match AddAll(t, list, a, load)
            case Error(st) => Error(st)
            case Done(l) => AddAll(t, l, b, load)
    decreases |a|
  {
    hide AddOne;
    if a == [] {
      assert a + b == b;
    } else {
      assert (a + b)[1..] == a[1..] + b;
      var one := AddOne(t, list, a[0], load);
      if one.Done? { AddAllAppend(t, one.value, a[1..], b, load); }
    }
  }

  lemma AddAllNext(t: MemType, list: seq<SectionDesc>, descs: seq<BlobDesc>, i: nat, load: Loader)
    requires i < |descs|
    ensures AddAll(t, list, descs[..i + 1], load) ==
            match AddAll(t, list, descs[..i], load)
            case Error(st) => Error(st)
            case Done(l) => AddOne(t, l, descs[i], load)
  {
    hide AddOne;
    assert descs[..i + 1] == descs[..i] + [descs[i]];
    AddAllAppend(t, list, descs[..i], [descs[i]], load);
    if AddAll(t, list, descs[..i], load).Done? {
      assert [descs[i]][1..] == [];
    }
  }

  /**
   Loading treats the lists independently: it succeeds exactly when every list takes all descriptors
   meant for it, and then each list is what those alone make of it.
   */
  lemma {:induction false} LoadByKey(known: Backends, m: Remote, entries: seq<Entry>, loaders: Loaders)
    requires RemoteCapable(known, entries)
    ensures LoadEntries(known, m, entries, loaders).Done? <==> forall k :: ListFor(known, m, entries, loaders, k).Done?
    ensures LoadEntries(known, m, entries, loaders).Done? ==>
              var r := LoadEntries(known, m, entries, loaders).value;
              r.Keys == m.Keys + KeysOf(known, entries)
              && forall k :: ListFor(known, m, entries, loaders, k) == Done(At(r, k))
    decreases |entries|
  {
    hide AddAll;
    if entries == [] {
      assert forall k :: ListFor(known, m, entries, loaders, k) == Done(At(m, k)) by { EmptyLoad(known, m, loaders); }
    } else {
      var e, rest := entries[0], entries[1..];
      assert entries == [e] + rest;
      if e.backend !in known {
        LoadByKey(known, m, rest, loaders);
        forall k ensures ListFor(known, m, entries, loaders, k) == ListFor(known, m, rest, loaders, k) {
          assert DescsFor(known, entries, k) == DescsFor(known, rest, k);
        }
      } else {
        var key := KeyOf(e);
        var one := AddAll(e.t, At(m, key), e.descs, loaders(key));
        AddAllAppend(e.t, At(m, key), e.descs, DescsFor(known, rest, key), loaders(key));
        if one.Error? {
          assert ListFor(known, m, entries, loaders, key).Error?;
        } else {
          var m1 := m[key := one.value];
          LoadByKey(known, m1, rest, loaders);
          forall k ensures ListFor(known, m, entries, loaders, k) == ListFor(known, m1, rest, loaders, k) {
            assert k != key ==> DescsFor(known, entries, k) == DescsFor(known, rest, k);
          }
        }
      }
    }
  }

  lemma EmptyLoad(known: Backends, m: Remote, loaders: Loaders)
    ensures forall k :: ListFor(known, m, [], loaders, k) == Done(At(m, k))
  {
  }

  // No two descriptors, old or new, disagree about the metadata of one range of the list.
  ghost predicate Agree(list: seq<SectionDesc>, descs: seq<BlobDesc>) {
    Coherent(descs) && forall i :: 0 <= i < |descs| ==> Compatible(list, descs[i])
  }

  /** When a load succeeds, and what the section holds then: each list the union of old and new. */
  lemma LoadIs(known: Backends, m: Remote, entries: seq<Entry>, loaders: Loaders)
    requires Held(m, loaders) && RemoteCapable(known, entries) && AllLoadable(known, entries, loaders)
    ensures LoadEntries(known, m, entries, loaders).Done? <==> forall k :: Agree(At(m, k), DescsFor(known, entries, k))
    ensures LoadEntries(known, m, entries, loaders).Done? ==>
              var r := LoadEntries(known, m, entries, loaders).value;
              Held(r, loaders) && r.Keys == m.Keys + KeysOf(known, entries) && Union(known, m, entries, loaders, r)
  {
    hide Strict, FromLoader, Loadable, Coherent, Compatible, AddAll, DescsFor, Elems, LoadEntries;
    LoadByKey(known, m, entries, loaders);
    forall k: Key
      ensures ListFor(known, m, entries, loaders, k).Done? <==> Agree(At(m, k), DescsFor(known, entries, k))
      ensures ListFor(known, m, entries, loaders, k).Done? ==>
                var l := ListFor(known, m, entries, loaders, k).value;
                Strict(l) && FromLoader(l, loaders(k))
                && Elems(l) == Elems(At(m, k)) + Elems(Secs(DescsFor(known, entries, k), loaders(k)))
    {
      AddAllIs(k.0, At(m, k), DescsFor(known, entries, k), loaders(k));
    }
  }

  // Every list of r holds what m's list held and the entries' descriptors for it.
  ghost predicate Union(known: Backends, m: Remote, entries: seq<Entry>, loaders: Loaders, r: Remote) {
    forall k :: Elems(At(r, k)) == Elems(At(m, k)) + Elems(Secs(DescsFor(known, entries, k), loaders(k)))
  }

  lemma {:induction false} DescsForAppend(known: Backends, a: seq<Entry>, b: seq<Entry>, k: Key)
    ensures DescsFor(known, a + b, k) == DescsFor(known, a, k) + DescsFor(known, b, k)
    decreases |a|
  {
    if a == [] {
      assert a + b == b;
    } else {
      assert (a + b)[1..] == a[1..] + b;
      DescsForAppend(known, a[1..], b, k);
    }
  }

  lemma AgreeSwap(list: seq<SectionDesc>, a: seq<BlobDesc>, b: seq<BlobDesc>)
    requires Agree(list, a + b)
    ensures Agree(list, b + a)
  {
    var s, r := a + b, b + a;
    forall i | 0 <= i < |r| ensures Compatible(list, r[i]) {
      assert r[i] == s[Swapped(|a|, |b|, i)];
    }
    forall i, j | 0 <= i < j < |r| && r[i].basic == r[j].basic ensures r[i].info == r[j].info {
      var i', j' := Swapped(|a|, |b|, i), Swapped(|a|, |b|, j);
      assert r[i] == s[i'] && r[j] == s[j'] && i' != j';
    }
  }

  // Where element i of b + a is in a + b.
  function Swapped(na: nat, nb: nat, i: nat): (j: nat)
    requires i < na + nb
    ensures j < na + nb
  {
    if i < nb then na + i else i - nb
  }

  lemma SecsAppend(a: seq<BlobDesc>, b: seq<BlobDesc>, load: Loader)
    ensures Elems(Secs(a + b, load)) == Elems(Secs(a, load)) + Elems(Secs(b, load))
  {
    assert Secs(a + b, load) == Secs(a, load) + Secs(b, load);
  }

  // Two sections with the same lists and the same contents are equal.
  lemma HeldUnique(m: Remote, n: Remote, loaders: Loaders)
    requires Held(m, loaders) && Held(n, loaders) && m.Keys == n.Keys && forall k :: Elems(At(m, k)) == Elems(At(n, k))
    ensures m == n
  {
    forall k | k in m ensures m[k] == n[k] {
      StrictUnique(At(m, k), At(n, k));
    }
  }

  // Loading two blobs one after the other is loading their entries together.
  lemma {:induction false} LoadAppend(known: Backends, m: Remote, a: seq<Entry>, b: seq<Entry>, loaders: Loaders)
    ensures LoadEntries(known, m, a + b, loaders) ==
            match LoadEntries(known, m, a, loaders)
            case Error(st) => Error(st)
            case Done(n) => LoadEntries(known, n, b, loaders)
    decreases |a|
  {
    hide AddAll;
    if a == [] {
      assert a + b == b;
    } else {
      assert (a + b)[1..] == a[1..] + b;
      var e := a[0];
      if e.backend !in known {
        LoadAppend(known, m, a[1..], b, loaders);
      } else {
        var one := AddAll(e.t, At(m, KeyOf(e)), e.descs, loaders(KeyOf(e)));
        if known[e.backend] && one.Done? { LoadAppend(known, m[KeyOf(e) := one.value], a[1..], b, loaders); }
      }
    }
  }

  /** Partial blobs accumulate to the same section in any order, or fail in any order. */
  lemma LoadOrder(known: Backends, m: Remote, a: seq<Entry>, b: seq<Entry>, loaders: Loaders)
    requires Held(m, loaders) && RemoteCapable(known, a + b) && AllLoadable(known, a + b, loaders)
    ensures LoadEntries(known, m, a + b, loaders).Done? <==> LoadEntries(known, m, b + a, loaders).Done?
    ensures LoadEntries(known, m, a + b, loaders).Done? ==>
              LoadEntries(known, m, b + a, loaders) == LoadEntries(known, m, a + b, loaders)
  {
    hide LoadEntries, DescsFor, Agree, Strict, FromLoader, Elems, At;
    SwapKeeps(known, a, b, loaders);
    LoadIs(known, m, a + b, loaders);
    LoadIs(known, m, b + a, loaders);
    forall k
      ensures Agree(At(m, k), DescsFor(known, a + b, k)) <==> Agree(At(m, k), DescsFor(known, b + a, k))
      ensures Elems(Secs(DescsFor(known, a + b, k), loaders(k))) == Elems(Secs(DescsFor(known, b + a, k), loaders(k)))
    {
      var da, db := DescsFor(known, a, k), DescsFor(known, b, k);
      DescsForAppend(known, a, b, k);
      DescsForAppend(known, b, a, k);
      if Agree(At(m, k), da + db) { AgreeSwap(At(m, k), da, db); }
      if Agree(At(m, k), db + da) { AgreeSwap(At(m, k), db, da); }
      SecsAppend(da, db, loaders(k));
      SecsAppend(db, da, loaders(k));
    }
    if LoadEntries(known, m, a + b, loaders).Done? {
      HeldUnique(LoadEntries(known, m, a + b, loaders).value, LoadEntries(known, m, b + a, loaders).value, loaders);
    }
  }

  lemma LoadableSwap(t: MemType, a: seq<BlobDesc>, b: seq<BlobDesc>, load: Loader)
    requires Loadable(t, a + b, load)
    ensures Loadable(t, b + a, load)
  {
    var s, r := a + b, b + a;
    forall i | 0 <= i < |r| ensures NormalizeQuery(t, r[i].basic) == r[i].basic && load(r[i]).Loaded? {
      assert r[i] == s[Swapped(|a|, |b|, i)];
    }
  }

  lemma SwapKeeps(known: Backends, a: seq<Entry>, b: seq<Entry>, loaders: Loaders)
    requires RemoteCapable(known, a + b) && AllLoadable(known, a + b, loaders)
    ensures RemoteCapable(known, b + a) && AllLoadable(known, b + a, loaders)
    ensures KeysOf(known, a + b) == KeysOf(known, b + a)
  {
    var s, r := a + b, b + a;
    forall i | 0 <= i < |r| && r[i].backend in known ensures known[r[i].backend] {
      assert r[i] == s[Swapped(|a|, |b|, i)];
    }
    forall k: Key ensures Loadable(k.0, DescsFor(known, r, k), loaders(k)) {
      var da, db := DescsFor(known, a, k), DescsFor(known, b, k);
      DescsForAppend(known, a, b, k);
      DescsForAppend(known, b, a, k);
      LoadableSwap(k.0, da, db, loaders(k));
    }
  }

  // Every descriptor of one list is in the other.
  ghost predicate Within(a: seq<BlobDesc>, b: seq<BlobDesc>) {
    forall i :: 0 <= i < |a| ==> a[i] in b
  }

  lemma AgreeWithin(list: seq<SectionDesc>, a: seq<BlobDesc>, b: seq<BlobDesc>)
    requires Within(a, b)
    ensures Agree(list, a + b) <==> Agree(list, b)
  {
    var s := a + b;
    if Agree(list, s) {
      forall i | 0 <= i < |b| ensures Compatible(list, b[i]) {
        assert b[i] == s[|a| + i];
      }
      forall i, j | 0 <= i < j < |b| && b[i].basic == b[j].basic ensures b[i].info == b[j].info {
        assert b[i] == s[|a| + i] && b[j] == s[|a| + j];
      }
    }
    if Agree(list, b) {
      forall i | 0 <= i < |s| ensures Compatible(list, s[i]) && s[i] in b {
        if i < |a| { assert s[i] == a[i]; }
      }
      forall i, j | 0 <= i < j < |s| && s[i].basic == s[j].basic ensures s[i].info == s[j].info {
        assert s[i] in b && s[j] in b;
      }
    }
  }

  lemma SecsWithin(a: seq<BlobDesc>, b: seq<BlobDesc>, load: Loader)
    requires Within(a, b)
    ensures Elems(Secs(a + b, load)) == Elems(Secs(b, load))
  {
    SecsAppend(a, b, load);
    forall x | x in Elems(Secs(a, load)) ensures x in Elems(Secs(b, load)) {
      var i :| 0 <= i < |a| && Secs(a, load)[i] == x;
      var j :| 0 <= j < |b| && b[j] == a[i];
      assert Secs(b, load)[j] == x;
    }
  }

  /** A partial blob before the full one changes nothing: what it brings is part of the full one. */
  lemma PartialThenFull(known: Backends, m: Remote, part: seq<Entry>, full: seq<Entry>, loaders: Loaders)
    requires Held(m, loaders) && RemoteCapable(known, part + full) && AllLoadable(known, part + full, loaders)
    requires RemoteCapable(known, full) && AllLoadable(known, full, loaders)
    requires KeysOf(known, part) <= KeysOf(known, full)
    requires forall k :: Within(DescsFor(known, part, k), DescsFor(known, full, k))
    ensures LoadEntries(known, m, part + full, loaders).Done? <==> LoadEntries(known, m, full, loaders).Done?
    ensures LoadEntries(known, m, full, loaders).Done? ==>
              LoadEntries(known, m, part + full, loaders) == LoadEntries(known, m, full, loaders)
  {
    hide LoadEntries, DescsFor, Agree, Strict, FromLoader, Elems, At, Within;
    LoadIs(known, m, part + full, loaders);
    LoadIs(known, m, full, loaders);
    forall k
      ensures Agree(At(m, k), DescsFor(known, part + full, k)) <==> Agree(At(m, k), DescsFor(known, full, k))
      ensures Elems(Secs(DescsFor(known, part + full, k), loaders(k)))
           == Elems(Secs(DescsFor(known, full, k), loaders(k)))
    {
      DescsForAppend(known, part, full, k);
      AgreeWithin(At(m, k), DescsFor(known, part, k), DescsFor(known, full, k));
      SecsWithin(DescsFor(known, part, k), DescsFor(known, full, k), loaders(k));
    }
    assert KeysOf(known, part + full) == KeysOf(known, part) + KeysOf(known, full);
    if LoadEntries(known, m, full, loaders).Done? {
      HeldUnique(LoadEntries(known, m, part + full, loaders).value, LoadEntries(known, m, full, loaders).value,
                 loaders);
    }
  }

  /** Loading what is there already changes nothing. */
  lemma Reload(known: Backends, m: Remote, entries: seq<Entry>, loaders: Loaders)
    requires Held(m, loaders) && RemoteCapable(known, entries) && AllLoadable(known, entries, loaders)
    requires LoadEntries(known, m, entries, loaders).Done?
    ensures var r := LoadEntries(known, m, entries, loaders).value;
            LoadEntries(known, r, entries, loaders) == Done(r)
  {
    hide LoadEntries, DescsFor, AddAll, Strict, FromLoader, Loadable, Elems, At;
    var r := LoadEntries(known, m, entries, loaders).value;
    LoadIs(known, m, entries, loaders);
    forall k ensures ListFor(known, r, entries, loaders, k) == Done(At(r, k)) {
      AddAllNoop(k.0, At(r, k), DescsFor(known, entries, k), loaders(k));
    }
    LoadByKey(known, r, entries, loaders);
    var again := LoadEntries(known, r, entries, loaders).value;
    assert forall k :: At(again, k) == At(r, k) by {
      forall k ensures At(again, k) == At(r, k) {
        assert ListFor(known, r, entries, loaders, k) == Done(At(r, k));
      }
    }
    LoadIs(known, r, entries, loaders);
    HeldUnique(again, r, loaders);
  }

  lemma {:induction false} AddAllNoop(t: MemType, list: seq<SectionDesc>, descs: seq<BlobDesc>, load: Loader)
    requires Strict(list) && FromLoader(list, load) && Loadable(t, descs, load)
    requires Elems(Secs(descs, load)) <= Elems(list)
    ensures AddAll(t, list, descs, load) == Done(list)
    decreases |descs|
  {
    hide AddOne, Strict, FromLoader;
    if descs != [] {
      SecsCons(descs, load);
      AddOneIs(t, list, descs[0], load);
      assert Sec(descs[0], load) in Elems(list);
      assert Loadable(t, descs[1..], load);
      AddAllNoop(t, list, descs[1..], load);
    }
  }
}
