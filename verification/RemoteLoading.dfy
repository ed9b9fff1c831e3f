/**
 nixlRemoteSection::loadRemoteData: from the bytes of a metadata blob to the section map, and the way
 back from a section map written by serializeSections.
 */
module RemoteLoading {
  import opened MachineInt
  import opened Descriptors
  import opened Coverage
  import opened SectionList
  import opened SerDes
  import opened MetadataBlob
  import opened RemoteSections
  import opened RemoteOutcomes

  datatype BlobOutcome =
    | Taken(value: Remote)
    | Refuses(st: Failure)
    | OutOfRange                          // memToBackend is indexed with the code of no memory type

  // loadRemoteData over entries as they are read. The memory type is not looked at before the backend is
  // known and takes remote metadata.
  function LoadRead(known: Backends, m: Remote, got: seq<ReadEntry>, loaders: Loaders): BlobOutcome
    decreases |got|
  {
    if got == [] then Taken(m)
    else
      var e := got[0];
      if e.backend !in known then LoadRead(known, m, got[1..], loaders)
      else if !known[e.backend] then Refuses(Unknown)
      else if e.t.Foreign? then OutOfRange
      else
        var key := (e.t.t, e.backend);
        match AddAll(e.t.t, At(m, key), e.descs, loaders(key))
        case Error(st) => Refuses(st)
        case Done(l) => LoadRead(known, m[key := l], got[1..], loaders)
  }

  // Entries are loaded as they are read, so a failure to load an entry hides later malformed ones.
  function LoadBlob(known: Backends, m: Remote, read: ReadEntries, loaders: Loaders): BlobOutcome {
    match read
    case Entries(es) => LoadRead(known, m, es, loaders)
    case Failed(es, st) =>
      var before := LoadRead(known, m, es, loaders);
      if before.Taken? then Refuses(st) else before
  }

  // The entry reaches emplace with the code of no memory type.
  predicate Strays(known: Backends, e: ReadEntry) {
    e.t.Foreign? && e.backend in known && known[e.backend]
  }

  /**
   Exactly when loading indexes memToBackend out of range: when an entry of a known, remote-capable
   backend has the code of no memory type and everything before it loads.
   */
  lemma {:induction false} OutOfRangeIff(known: Backends, m: Remote, got: seq<ReadEntry>, loaders: Loaders)
    ensures LoadRead(known, m, got, loaders) == OutOfRange
            <==> exists i :: 0 <= i < |got| && Strays(known, got[i]) && LoadRead(known, m, got[..i], loaders).Taken?
    decreases |got|
  {
    hide AddAll;
    if got != [] {
      var e, rest := got[0], got[1..];
      if e.backend !in known {
        OutOfRangeIff(known, m, rest, loaders);
        PrefixShift(known, m, m, got, loaders);
      } else if known[e.backend] && e.t.Known? {
        var key := (e.t.t, e.backend);
        var one := AddAll(e.t.t, At(m, key), e.descs, loaders(key));
        if one.Done? {
          OutOfRangeIff(known, m[key := one.value], rest, loaders);
          PrefixShift(known, m, m[key := one.value], got, loaders);
        } else {
          forall i | 0 < i <= |got| ensures !LoadRead(known, m, got[..i], loaders).Taken? {
            assert got[..i][0] == e;
          }
        }
      } else if !known[e.backend] {
        forall i | 0 < i <= |got| ensures !LoadRead(known, m, got[..i], loaders).Taken? {
          assert got[..i][0] == e;
        }
      } else {
        assert got[..0] == [];
        assert Strays(known, got[0]) && LoadRead(known, m, got[..0], loaders).Taken?;
      }
    }
  }

  // Past a first entry that turns m into m1, the same places stray.
  lemma PrefixShift(known: Backends, m: Remote, m1: Remote, got: seq<ReadEntry>, loaders: Loaders)
    requires got != [] && !Strays(known, got[0])
    requires forall tail :: LoadRead(known, m, [got[0]] + tail, loaders) == LoadRead(known, m1, tail, loaders)
    ensures (exists i :: 0 <= i < |got| && Strays(known, got[i]) && LoadRead(known, m, got[..i], loaders).Taken?)
            <==> (exists i :: 0 <= i < |got| - 1 && Strays(known, got[1..][i])
                              && LoadRead(known, m1, got[1..][..i], loaders).Taken?)
  {
    hide LoadRead, Strays;
    var rest := got[1..];
    forall i | 0 < i < |got| ensures got[i] == rest[i - 1]
      ensures LoadRead(known, m, got[..i], loaders) == LoadRead(known, m1, rest[..i - 1], loaders)
    {
      assert got[..i] == [got[0]] + rest[..i - 1];
    }
    if i :| 0 <= i < |got| && Strays(known, got[i]) && LoadRead(known, m, got[..i], loaders).Taken? {
      assert Strays(known, rest[i - 1]) && LoadRead(known, m1, rest[..i - 1], loaders).Taken?;
    }
    if i :| 0 <= i < |rest| && Strays(known, rest[i]) && LoadRead(known, m1, rest[..i], loaders).Taken? {
      assert Strays(known, got[i + 1]) && LoadRead(known, m, got[..i + 1], loaders).Taken?;
    }
  }

  // The entries with a memory type of the enumeration.
  function Plain(got: seq<ReadEntry>): seq<Entry> {
    if got == [] then []
    else (if got[0].t.Known? then [Entry(got[0].t.t, got[0].backend, got[0].descs)] else []) + Plain(got[1..])
  }

  // No entry strays, and every known backend among them takes remote metadata.
  ghost predicate Tame(known: Backends, got: seq<ReadEntry>) {
    forall i :: 0 <= i < |got| && got[i].backend in known ==> known[got[i].backend] && got[i].t.Known?
  }

  lemma {:induction false} PlainLoads(known: Backends, m: Remote, got: seq<ReadEntry>, loaders: Loaders)
    requires Tame(known, got)
    ensures RemoteCapable(known, Plain(got))
    ensures LoadRead(known, m, got, loaders) ==
            match LoadEntries(known, m, Plain(got), loaders)
            case Done(n) => Taken(n)
            case Error(st) => Refuses(st)
    decreases |got|
  {
    hide AddAll;
    if got != [] {
      var e, rest := got[0], got[1..];
      if e.t.Known? {
        assert Plain(got)[1..] == Plain(rest);
        if e.backend in known {
          var key := (e.t.t, e.backend);
          var one := AddAll(e.t.t, At(m, key), e.descs, loaders(key));
          PlainLoads(known, if one.Done? then m[key := one.value] else m, rest, loaders);
        } else {
          PlainLoads(known, m, rest, loaders);
        }
      } else {
        assert Plain(got) == Plain(rest);
        PlainLoads(known, m, rest, loaders);
      }
    }
  }

  lemma {:induction false} LoadReadAppend(known: Backends, m: Remote, a: seq<ReadEntry>, b: seq<ReadEntry>,
                                          loaders: Loaders)
    ensures LoadRead(known, m, a + b, loaders) ==
            match LoadRead(known, m, a, loaders)
            case Taken(n) => LoadRead(known, n, b, loaders)
            case Refuses(st) => Refuses(st)
            case OutOfRange => OutOfRange
    decreases |a|
  {
    hide AddAll;
    if a == [] {
      assert a + b == b;
    } else {
      var e := a[0];
      assert (a + b)[1..] == a[1..] + b;
      if e.backend !in known {
        LoadReadAppend(known, m, a[1..], b, loaders);
      } else if known[e.backend] && e.t.Known? {
        var key := (e.t.t, e.backend);
        var one := AddAll(e.t.t, At(m, key), e.descs, loaders(key));
        if one.Done? { LoadReadAppend(known, m[key := one.value], a[1..], b, loaders); }
      }
    }
  }

  lemma {:induction false} TakenIsTame(known: Backends, m: Remote, got: seq<ReadEntry>, loaders: Loaders)
    requires LoadRead(known, m, got, loaders).Taken?
    ensures Tame(known, got)
    decreases |got|
  {
    hide AddAll;
    if got != [] {
      var e, rest := got[0], got[1..];
      if e.backend in known {
        var key := (e.t.t, e.backend);
        TakenIsTame(known, m[key := AddAll(e.t.t, At(m, key), e.descs, loaders(key)).value], rest, loaders);
      } else {
        TakenIsTame(known, m, rest, loaders);
      }
      assert forall i :: 0 < i < |got| ==> got[i] == rest[i - 1];
    }
  }

  /**
   Exactly when a blob is taken, whatever the backends answer: it can be read to its end, every known
   backend in it takes remote metadata and has a memory type of the enumeration, and no descriptor
   clashes or is refused. Every list then gathers what it held and what is new to it.
   */
  lemma TakenIff(known: Backends, m: Remote, read: ReadEntries, loaders: Loaders)
    requires StrictLists(m)
    ensures LoadBlob(known, m, read, loaders).Taken?
            <==> read.Entries? && Tame(known, read.entries) && Fits(known, m, Plain(read.entries), loaders)
    ensures LoadBlob(known, m, read, loaders).Taken? ==>
              GathersAll(known, m, Plain(read.entries), loaders, LoadBlob(known, m, read, loaders).value)
  {
    hide LoadRead, Tame, Fits, GathersAll, Plain, LoadEntries, StrictLists;
    if read.Entries? {
      var got := read.entries;
      if LoadRead(known, m, got, loaders).Taken? { TakenIsTame(known, m, got, loaders); }
      if Tame(known, got) {
        PlainLoads(known, m, got, loaders);
        FitsDone(known, m, Plain(got), loaders);
      }
    }
  }

  lemma GathersStrict(known: Backends, m: Remote, entries: seq<Entry>, loaders: Loaders, r: Remote)
    requires GathersAll(known, m, entries, loaders, r)
    ensures StrictLists(r)
  {
    hide Strict;
    forall k: Key ensures Strict(At(r, k)) {
      assert Gathers(k.0, At(m, k), DescsFor(known, entries, k), loaders(k), At(r, k));
    }
  }

  /** So after a load every descriptor of a known backend in the blob is in its list, with its own metadata. */
  lemma TakenIsThere(known: Backends, m: Remote, read: ReadEntries, loaders: Loaders, i: nat, j: nat)
    requires StrictLists(m) && LoadBlob(known, m, read, loaders).Taken?
    requires i < |AllRead(read)| && AllRead(read)[i].backend in known && j < |AllRead(read)[i].descs|
    ensures var e := AllRead(read)[i];
            && e.t.Known?
            && HoldsDesc(e.t.t, At(LoadBlob(known, m, read, loaders).value, (e.t.t, e.backend)), e.descs[j])
  {
    hide LoadRead, LoadEntries, StrictLists, HoldsDesc, Fits, GathersAll, Plain;
    TakenIff(known, m, read, loaders);
    var got := read.entries;
    PlainLoads(known, m, got, loaders);
    var p := PlainPlace(got, i);
    LoadedIsThere(known, m, Plain(got), loaders, p, j);
  }

  // Where an entry of the enumeration stands among those.
  lemma {:induction false} PlainPlace(got: seq<ReadEntry>, i: nat) returns (p: nat)
    requires i < |got| && got[i].t.Known?
    ensures p < |Plain(got)| && Plain(got)[p] == Entry(got[i].t.t, got[i].backend, got[i].descs)
    decreases |got|
  {
    if i == 0 {
      p := 0;
    } else {
      p := PlainPlace(got[1..], i - 1);
      if got[0].t.Known? { p := p + 1; }
    }
  }

  /**
   The same condition without the loader: behind entries that the backends accept, the first entry that
   strays is reached exactly when those before it agree, list by list, with what is there and with each
   other about the metadata of every range.
   */
  lemma OutOfRangeClosed(known: Backends, m: Remote, got: seq<ReadEntry>, loaders: Loaders, i: nat)
    requires i < |got| && Strays(known, got[i]) && Tame(known, got[..i])
    requires Held(m, loaders) && AllLoadable(known, Plain(got[..i]), loaders)
    ensures LoadRead(known, m, got, loaders) == OutOfRange
            <==> forall k :: Agree(At(m, k), DescsFor(known, Plain(got[..i]), k))
  {
    hide Agree, DescsFor, Held, AllLoadable, LoadEntries, Plain;
    var before, rest := got[..i], got[i..];
    assert got == before + rest;
    LoadReadAppend(known, m, before, rest, loaders);
    PlainLoads(known, m, before, loaders);
    LoadIs(known, m, Plain(before), loaders);
    assert rest[0] == got[i];
  }

  // One entry of a known backend with the code 5 is enough.
  lemma ForeignCodeExample(backend: Blob, d: BlobDesc, loaders: Loaders)
    ensures LoadRead(map[backend := true], map[], [ReadEntry(Foreign(5), backend, [d])], loaders) == OutOfRange
  {
  }

  // Entries that a section map wrote have memory types of the enumeration.
  lemma {:induction false} ReadsAreEntries(known: Backends, m: Remote, entries: seq<Entry>, loaders: Loaders)
    ensures LoadRead(known, m, AsRead(entries), loaders) ==
            match LoadEntries(known, m, entries, loaders)
            case Done(n) => Taken(n)
            case Error(st) => Refuses(st)
    decreases |entries|
  {
    hide AddAll;
    if entries != [] {
      var e := entries[0];
      assert AsRead(entries)[1..] == AsRead(entries[1..]);
      if e.backend !in known {
        ReadsAreEntries(known, m, entries[1..], loaders);
      } else {
        var one := AddAll(e.t, At(m, KeyOf(e)), e.descs, loaders(KeyOf(e)));
        if one.Done? { ReadsAreEntries(known, m[KeyOf(e) := one.value], entries[1..], loaders); }
      }
    }
  }

  /**
   Exactly when a new remote section takes the blob of a section map: no list in it is empty, and no
   range stands in it twice with different metadata. It then holds what the blob holds.
   */
  lemma RoundTripIff(known: Backends, r: Reader, entries: seq<Entry>, loaders: Loaders)
    requires Before(r, EncodeSections(entries)) && Encodable(entries)
    requires RemoteCapable(known, entries) && AllLoadable(known, entries, loaders)
    ensures LoadBlob(known, map[], DecodeSections(r), loaders).Taken?
            <==> NoneEmpty(entries) && forall k :: Coherent(DescsFor(known, entries, k))
    ensures LoadBlob(known, map[], DecodeSections(r), loaders).Taken? ==>
              var m := LoadBlob(known, map[], DecodeSections(r), loaders).value;
              m.Keys == KeysOf(known, entries) && Held(m, loaders) && Union(known, map[], entries, loaders, m)
  {
    hide LoadEntries, LoadRead, DescsFor, Coherent, DecodeSections, EncodeSections;
    SectionsRoundTripIff(r, entries);
    ReadsAreEntries(known, map[], entries, loaders);
    ReadsAreEntries(known, map[], UpToEmpty(entries), loaders);
    LoadIs(known, map[], entries, loaders);
    assert forall k :: Agree(At(map[], k), DescsFor(known, entries, k)) <==> Coherent(DescsFor(known, entries, k));
  }

  /**
   The same into any section and whatever the backends answer: the blob of a section map is taken exactly
   when no list in it is empty and none of its descriptors fails; every list then gathers what is new.
   */
  lemma SentOutcome(known: Backends, m: Remote, r: Reader, entries: seq<Entry>, loaders: Loaders)
    requires Before(r, EncodeSections(entries)) && Encodable(entries) && StrictLists(m)
    ensures LoadBlob(known, m, DecodeSections(r), loaders).Taken?
            <==> NoneEmpty(entries) && Fits(known, m, entries, loaders)
    ensures LoadBlob(known, m, DecodeSections(r), loaders).Taken? ==>
              GathersAll(known, m, entries, loaders, LoadBlob(known, m, DecodeSections(r), loaders).value)
  {
    hide LoadEntries, LoadRead, DecodeSections, EncodeSections, Fits, GathersAll, StrictLists;
    SectionsRoundTripIff(r, entries);
    ReadsAreEntries(known, m, entries, loaders);
    ReadsAreEntries(known, m, UpToEmpty(entries), loaders);
    LoadOutcome(known, m, entries, loaders, |entries|);
    assert entries[..|entries|] == entries;
    if Fits(known, m, entries, loaders) {
      assert RemoteCapable(known, entries) by { FitsParts(known, m, entries, loaders); }
      FitsDone(known, m, entries, loaders);
    }
  }

  lemma FitsParts(known: Backends, m: Remote, entries: seq<Entry>, loaders: Loaders)
    requires Fits(known, m, entries, loaders)
    ensures RemoteCapable(known, entries)
  {
  }

  ghost predicate StrictDescs(descs: seq<BlobDesc>) {
    forall i, j :: 0 <= i < j < |descs| ==> Less(descs[i].basic, descs[j].basic)
  }

  // One entry per list, as in the blob of a section map.
  ghost predicate OnePerKey(entries: seq<Entry>) {
    forall i, j :: 0 <= i < j < |entries| ==> KeyOf(entries[i]) != KeyOf(entries[j])
  }

  lemma {:induction false} DescsForOne(known: Backends, entries: seq<Entry>, k: Key)
    requires OnePerKey(entries)
    ensures DescsFor(known, entries, k) != [] ==>
              exists i ::
                0 <= i < |entries| && KeyOf(entries[i]) == k && DescsFor(known, entries, k) == entries[i].descs
    ensures forall i :: 0 <= i < |entries| && KeyOf(entries[i]) == k && k.1 in known ==>
                          DescsFor(known, entries, k) == entries[i].descs
    ensures (forall i :: 0 <= i < |entries| ==> KeyOf(entries[i]) != k) ==> DescsFor(known, entries, k) == []
    decreases |entries|
  {
    if entries != [] {
      var e, rest := entries[0], entries[1..];
      assert forall i :: 0 <= i < |rest| ==> rest[i] == entries[i + 1];
      DescsForOne(known, rest, k);
    }
  }

  /** A section map without repeated ranges arrives as it was: the same lists, descriptors and metadata, in order. */
  lemma RoundTrip(known: Backends, r: Reader, entries: seq<Entry>, loaders: Loaders)
    requires Before(r, EncodeSections(entries)) && Encodable(entries) && NoneEmpty(entries) && OnePerKey(entries)
    requires RemoteCapable(known, entries) && AllLoadable(known, entries, loaders)
    requires forall i :: 0 <= i < |entries| ==> StrictDescs(entries[i].descs)
    ensures LoadBlob(known, map[], DecodeSections(r), loaders).Taken?
    ensures var m := LoadBlob(known, map[], DecodeSections(r), loaders).value;
            m.Keys == KeysOf(known, entries)
            && forall i :: 0 <= i < |entries| && entries[i].backend in known ==>
                             At(m, KeyOf(entries[i])) == Secs(entries[i].descs, loaders(KeyOf(entries[i])))
  {
    hide LoadBlob, DescsFor, DecodeSections, EncodeSections, Less;
    forall k ensures StrictDescs(DescsFor(known, entries, k)) && Coherent(DescsFor(known, entries, k)) {
      DescsForOne(known, entries, k);
      StrictCoherent(DescsFor(known, entries, k));
    }
    RoundTripIff(known, r, entries, loaders);
    var m := LoadBlob(known, map[], DecodeSections(r), loaders).value;
    forall i | 0 <= i < |entries| && entries[i].backend in known
      ensures At(m, KeyOf(entries[i])) == Secs(entries[i].descs, loaders(KeyOf(entries[i])))
    {
      var k := KeyOf(entries[i]);
      DescsForOne(known, entries, k);
      StrictUnique(At(m, k), Secs(entries[i].descs, loaders(k)));
    }
  }

  lemma StrictCoherent(descs: seq<BlobDesc>)
    requires StrictDescs(descs)
    ensures Coherent(descs)
  {
  }

  /** nixlRemoteSection: what one agent knows of the sections of another. */
  class RemoteSection {
    var sectionMap: Remote

    constructor ()
      ensures sectionMap == map[]
    {
      sectionMap := map[];
    }

    // One round of addDescList.
    method AddDesc(t: MemType, key: Key, d: BlobDesc, load: Loader) returns (st: Status)
      requires key in sectionMap
      modifies this
      ensures var one := AddOne(t, old(sectionMap[key]), d, load);
              if one.Done? then st == Success && sectionMap == old(sectionMap)[key := one.value]
              else st == one.st && sectionMap == old(sectionMap)
    {
      hide Insert, LowerBound;
      var target := sectionMap[key];
      var q := NormalizeQuery(t, d.basic);
      var at := LowerBound(target, q);
      if at == |target| || target[at].basic != q {
        var answer := load(d);
        if answer.Refused? { return answer.st; }
        sectionMap := sectionMap[key := Insert(target, Normalize(t, SectionDesc(d.basic, answer.meta, d.info)))];
      } else if target[at].blob != d.info {
        return NotAllowed;
      }
      st := Success;
    }

    // The loop of addDescList, once the list is there.
    method AddDescs(t: MemType, key: Key, descs: seq<BlobDesc>, load: Loader) returns (st: Status, ghost loaded: nat)
      requires key in sectionMap
      modifies this
      ensures key in sectionMap && sectionMap == old(sectionMap)[key := sectionMap[key]]
      ensures var all := AddAll(t, old(sectionMap[key]), descs, load);
              if all.Done? then st == Success && sectionMap[key] == all.value && loaded == |descs| else st == all.st
      ensures loaded <= |descs| && AddAll(t, old(sectionMap[key]), descs[..loaded], load) == Done(sectionMap[key])
      ensures st != Success ==> loaded < |descs| && AddOne(t, sectionMap[key], descs[loaded], load) == Error(st)
    {
      hide AddOne, AddAll;
      loaded := 0;
      AddAllNone(t, sectionMap[key], descs, load);
      assert descs[0..] == descs;
      for i := 0 to |descs|
        invariant key in sectionMap && sectionMap == old(sectionMap)[key := sectionMap[key]]
        invariant AddAll(t, old(sectionMap[key]), descs, load) == AddAll(t, sectionMap[key], descs[i..], load)
        invariant loaded == i && AddAll(t, old(sectionMap[key]), descs[..i], load) == Done(sectionMap[key])
      {
        AddAllStep(t, sectionMap[key], descs, i, load);
        AddAllNext(t, old(sectionMap[key]), descs, i, load);
        st := AddDesc(t, key, descs[i], load);
        if st != Success { return; }
        loaded := loaded + 1;
      }
      AddAllEnd(t, sectionMap[key], descs, load);
      st := Success;
    }

    // A failure keeps the descriptors before the one that failed.
    method AddDescList(t: MemType, backend: Blob, remote: bool, descs: seq<BlobDesc>, load: Loader)
      returns (st: Status, ghost loaded: nat)
      modifies this
      ensures !remote ==> st == Unknown && sectionMap == old(sectionMap)
      ensures remote ==>
                match AddAll(t, At(old(sectionMap), (t, backend)), descs, load)
                case Done(l) => st == Success && sectionMap == old(sectionMap)[(t, backend) := l]
                case Error(e) => st == e
      ensures forall k :: k != (t, backend) ==> At(sectionMap, k) == At(old(sectionMap), k)
      ensures remote ==> (t, backend) in sectionMap && loaded <= |descs|
      ensures remote ==> sectionMap == old(sectionMap)[(t, backend) := sectionMap[(t, backend)]]
      ensures remote ==>
                AddAll(t, At(old(sectionMap), (t, backend)), descs[..loaded], load)
                == Done(At(sectionMap, (t, backend)))
      ensures remote && st != Success ==>
                loaded < |descs| && AddOne(t, At(sectionMap, (t, backend)), descs[loaded], load) == Error(st)
    {
      if !remote { return Unknown, 0; }
      hide AddAll;
      var key := (t, backend);
      sectionMap := sectionMap[key := At(sectionMap, key)];
      st, loaded := AddDescs(t, key, descs, load);
    }

    /**
     loadRemoteData, reading and loading entry by entry. After an error the section holds the entries that
     were loaded, `done`, and of the entry that failed its first `loaded` descriptors.
     */
    method LoadRemoteData(known: Backends, r: Reader, loaders: Loaders)
      returns (st: Status, ghost done: seq<ReadEntry>, ghost loaded: nat)
      requires |r.bytes| < TWO_64 && LoadBlob(known, sectionMap, DecodeSections(r), loaders) != OutOfRange
      modifies this
      ensures match LoadBlob(known, old(sectionMap), DecodeSections(r), loaders)
              case Taken(m) => st == Success && sectionMap == m
              case Refuses(e) => st == e
      ensures done <= AllRead(DecodeSections(r)) && LoadRead(known, old(sectionMap), done, loaders).Taken?
      ensures var m := LoadRead(known, old(sectionMap), done, loaders).value;
              sectionMap == m || PartLoaded(AllRead(DecodeSections(r)), |done|, m, sectionMap, loaders, loaded)
    {
      hide GetBuf, Decode, DecodeEntries, LoadRead, PartLoaded;
      done, loaded := [], 0;
      NothingLoaded(known, sectionMap, loaders);
      var count := GetBuf(r, TAG_SECTIONS, SIZE_BYTES);
      if count.BadBuf? { return Mismatch, [], 0; }
      var n, cur := Decode(count.value), count.rest;
      for i := 0 to n
        invariant |cur.bytes| < TWO_64
        invariant LoadBlob(known, old(sectionMap), DecodeSections(r), loaders)
               == LoadBlob(known, sectionMap, DecodeEntries(cur, n - i), loaders)
        invariant AllRead(DecodeSections(r)) == done + AllRead(DecodeEntries(cur, n - i))
        invariant LoadRead(known, old(sectionMap), done, loaders) == Taken(sectionMap)
      {
        ghost var before, suffix := sectionMap, AllRead(DecodeEntries(cur, n - i));
        ghost var e;
        st, cur, e, loaded := LoadNext(known, cur, n - i, loaders);
        if st != Success {
          PartShift(done, suffix, before, sectionMap, loaders, loaded);
          return;
        }
        LoadReadAppend(known, old(sectionMap), done, [e], loaders);
        done := done + [e];
      }
      LoadBlobEnd(known, sectionMap, cur, loaders);
      st := Success;
    }

    // One round of loadRemoteData.
    method LoadNext(known: Backends, r: Reader, n: nat, loaders: Loaders)
      returns (st: Status, rest: Reader, ghost e: ReadEntry, ghost loaded: nat)
      requires |r.bytes| < TWO_64 && n > 0
      requires LoadBlob(known, sectionMap, DecodeEntries(r, n), loaders) != OutOfRange
      modifies this
      ensures |rest.bytes| < TWO_64
      ensures st == Success ==>
                LoadBlob(known, old(sectionMap), DecodeEntries(r, n), loaders)
                == LoadBlob(known, sectionMap, DecodeEntries(rest, n - 1), loaders)
      ensures st == Success ==> AllRead(DecodeEntries(r, n)) == [e] + AllRead(DecodeEntries(rest, n - 1))
      ensures st == Success ==> LoadRead(known, old(sectionMap), [e], loaders) == Taken(sectionMap)
      ensures st != Success ==>
                var refused := LoadBlob(known, old(sectionMap), DecodeEntries(r, n), loaders);
                refused.Refuses? && refused.st == st
      ensures st != Success ==>
                || sectionMap == old(sectionMap)
                || PartLoaded(AllRead(DecodeEntries(r, n)), 0, old(sectionMap), sectionMap, loaders, loaded)
    {
      hide GetStr, DecodeList, AddAll, DecodeEntries, LoadRead, LoadBlob;
      LoadBlobStep(known, sectionMap, r, n, loaders);
      EntryStep(r, n);
      var (name, r1) := GetStr(r, TAG_BACKEND);
      rest, loaded, e := r1, 0, ReadEntry(Foreign(0), [], []);
      if name == [] { st := InvalidParam; return; }
      var list := DecodeList(r1);
      if list.descs == [] { st := NotFound; return; }
      e := ReadEntry(list.t, name, list.descs);
      NothingLoaded(known, sectionMap, loaders);
      LoadOneMore(known, sectionMap, [], e, loaders);
      assert [] + [e] == [e];
      st, rest := Success, list.rest;
      if name in known {
        if !known[name] { st := Unknown; return; }
        st, loaded := AddDescList(list.t.t, name, known[name], list.descs, loaders((list.t.t, name)));
      }
    }
  }

  // An entry that failed behind others is one of all that were read.
  lemma PartShift(done: seq<ReadEntry>, suffix: seq<ReadEntry>, m: Remote, n: Remote, loaders: Loaders, loaded: nat)
    ensures PartLoaded(suffix, 0, m, n, loaders, loaded) ==> PartLoaded(done + suffix, |done|, m, n, loaders, loaded)
  {
    if suffix != [] { assert (done + suffix)[|done|] == suffix[0]; }
  }

  // All entries that were read, whether or not reading failed behind them.
  function AllRead(read: ReadEntries): seq<ReadEntry> {
    if read.Entries? then read.entries else read.read
  }

  // n is m with the first descriptors of entry i loaded into their list.
  ghost predicate PartLoaded(got: seq<ReadEntry>, i: nat, m: Remote, n: Remote, loaders: Loaders, loaded: nat) {
    && i < |got| && got[i].t.Known? && loaded < |got[i].descs|
    && var key := (got[i].t.t, got[i].backend);
    && n == m[key := At(n, key)]
    && AddAll(key.0, At(m, key), got[i].descs[..loaded], loaders(key)) == Done(At(n, key))
    && AddOne(key.0, At(n, key), got[i].descs[loaded], loaders(key)).Error?
  }

  lemma NothingLoaded(known: Backends, m: Remote, loaders: Loaders)
    ensures LoadRead(known, m, [], loaders) == Taken(m)
  {
  }

  lemma LoadBlobEnd(known: Backends, m: Remote, r: Reader, loaders: Loaders)
    requires |r.bytes| < TWO_64
    ensures LoadBlob(known, m, DecodeEntries(r, 0), loaders) == Taken(m)
  {
  }

  // Loading one entry more.
  lemma LoadOneMore(known: Backends, m: Remote, done: seq<ReadEntry>, e: ReadEntry, loaders: Loaders)
    requires LoadRead(known, m, done, loaders).Taken?
    ensures var n := LoadRead(known, m, done, loaders).value;
            LoadRead(known, m, done + [e], loaders) ==
            if e.backend !in known then Taken(n)
            else if !known[e.backend] then Refuses(Unknown)
            else if e.t.Foreign? then OutOfRange
            else
              match AddAll(e.t.t, At(n, (e.t.t, e.backend)), e.descs, loaders((e.t.t, e.backend)))
              case Error(st) => Refuses(st)
              case Done(l) => Taken(n[(e.t.t, e.backend) := l])
  {
    hide AddAll;
    LoadReadAppend(known, m, done, [e], loaders);
    assert [e][1..] == [];
  }

  lemma EntryStep(r: Reader, n: nat)
    requires |r.bytes| < TWO_64 && n > 0
    ensures var (name, r1) := GetStr(r, TAG_BACKEND);
            var list := DecodeList(r1);
            AllRead(DecodeEntries(r, n)) ==
            if name == [] || list.descs == [] then []
            else [ReadEntry(list.t, name, list.descs)] + AllRead(DecodeEntries(list.rest, n - 1))
  {
    hide GetStr, DecodeList;
  }

  lemma AddAllStep(t: MemType, list: seq<SectionDesc>, descs: seq<BlobDesc>, i: nat, load: Loader)
    requires i < |descs|
    ensures AddAll(t, list, descs[i..], load) ==
            match AddOne(t, list, descs[i], load)
            case Error(st) => Error(st)
            case Done(l) => AddAll(t, l, descs[i + 1..], load)
  {
    hide AddOne;
    assert descs[i..][1..] == descs[i + 1..];
  }

  lemma AddAllNone(t: MemType, list: seq<SectionDesc>, descs: seq<BlobDesc>, load: Loader)
    ensures AddAll(t, list, descs[..0], load) == Done(list)
  {
  }

  lemma AddAllEnd(t: MemType, list: seq<SectionDesc>, descs: seq<BlobDesc>, load: Loader)
    ensures AddAll(t, list, descs[|descs|..], load) == Done(list)
  {
  }

  // One round of loadRemoteData.
  lemma LoadBlobStep(known: Backends, m: Remote, r: Reader, n: nat, loaders: Loaders)
    requires |r.bytes| < TWO_64 && n > 0
    ensures var (name, r1) := GetStr(r, TAG_BACKEND);
            var list := DecodeList(r1);
            LoadBlob(known, m, DecodeEntries(r, n), loaders) ==
            if name == [] then Refuses(InvalidParam)
            else if list.descs == [] then Refuses(NotFound)
            else if name !in known then LoadBlob(known, m, DecodeEntries(list.rest, n - 1), loaders)
            else if !known[name] then Refuses(Unknown)
            else if list.t.Foreign? then OutOfRange
            else
              match AddAll(list.t.t, At(m, (list.t.t, name)), list.descs, loaders((list.t.t, name)))
              case Error(e) => Refuses(e)
              case Done(l) => LoadBlob(known, m[(list.t.t, name) := l], DecodeEntries(list.rest, n - 1), loaders)
  {
    hide GetStr, DecodeList, AddAll;
    var (name, r1) := GetStr(r, TAG_BACKEND);
    var list := DecodeList(r1);
    if name != [] && list.descs != [] {
      var e := ReadEntry(list.t, name, list.descs);
      var rest := DecodeEntries(list.rest, n - 1);
      var es := if rest.Entries? then rest.entries else rest.read;
      assert ([e] + es)[1..] == es;
    }
  }
}
