/**
 From one agent's local sections to another agent's remote sections: what serializeSections writes of a
 section map, and what loading it gives.
 */
module MetadataExchange {
  import opened MachineInt
  import opened Descriptors
  import opened Coverage
  import opened SectionList
  import opened Registration
  import opened SerDes
  import opened MetadataBlob
  import opened LocalSections
  import opened RemoteSections
  import opened RemoteLoading
  import opened XferPipeline

  type SectionKey = (MemType, Engine)

  function Contents(s: seq<SectionDesc>): (r: seq<BlobDesc>)
    ensures |r| == |s| && forall i :: 0 <= i < |s| ==> r[i] == Content(s[i])
  {
    seq(|s|, i requires 0 <= i < |s| => Content(s[i]))
  }

  function EntryOf(m: Sections, k: SectionKey, nameOf: Engine -> Blob): Entry
    requires k in m
  {
    Entry(k.0, nameOf(k.1), Contents(m[k]))
  }

  // The entries serializeSections writes when it walks the map in the given order: those of backends
  // that take part in remote transfers.
  function Serialized(m: Sections, order: seq<SectionKey>, nameOf: Engine -> Blob): seq<Entry>
    requires forall i :: 0 <= i < |order| ==> order[i] in m
  {
    if order == [] then []
    else (if order[0].1.supportsRemote then [EntryOf(m, order[0], nameOf)] else []) + Serialized(m, order[1..], nameOf)
  }

  // Names tell the remote-capable backends of the map apart.
  ghost predicate Naming(order: seq<SectionKey>, nameOf: Engine -> Blob) {
    forall i, j :: 0 <= i < |order| && 0 <= j < |order| && order[i].1.supportsRemote && order[j].1.supportsRemote ==>
      nameOf(order[i].1) == nameOf(order[j].1) ==> order[i].1 == order[j].1
  }

  ghost predicate Ordered(m: Sections, order: seq<SectionKey>) {
    && (forall i :: 0 <= i < |order| ==> order[i] in m)
    && (forall i, j :: 0 <= i < j < |order| ==> order[i] != order[j])
  }

  // Entry i was written for key j.
  ghost predicate WrittenFor(m: Sections, order: seq<SectionKey>, nameOf: Engine -> Blob, e: Entry, j: nat) {
    j < |order| && order[j] in m && order[j].1.supportsRemote && e == EntryOf(m, order[j], nameOf)
  }

  lemma {:induction false} EntryFrom(m: Sections, order: seq<SectionKey>, nameOf: Engine -> Blob, i: nat)
    returns (j: nat)
    requires Ordered(m, order) && i < |Serialized(m, order, nameOf)|
    ensures WrittenFor(m, order, nameOf, Serialized(m, order, nameOf)[i], j)
    decreases |order|
  {
    var first := if order[0].1.supportsRemote then 1 else 0;
    if i < first {
      j := 0;
    } else {
      j := EntryFrom(m, order[1..], nameOf, i - first);
      j := j + 1;
    }
  }

  lemma {:induction false} EntryFor(m: Sections, order: seq<SectionKey>, nameOf: Engine -> Blob, j: nat)
    returns (i: nat)
    requires Ordered(m, order) && j < |order| && order[j].1.supportsRemote
    ensures i < |Serialized(m, order, nameOf)| && Serialized(m, order, nameOf)[i] == EntryOf(m, order[j], nameOf)
    decreases |order|
  {
    if j == 0 {
      i := 0;
    } else {
      i := EntryFor(m, order[1..], nameOf, j - 1);
      i := i + if order[0].1.supportsRemote then 1 else 0;
    }
  }

  lemma {:induction false} OneEntryPerKey(m: Sections, order: seq<SectionKey>, nameOf: Engine -> Blob)
    requires Ordered(m, order) && Naming(order, nameOf)
    ensures OnePerKey(Serialized(m, order, nameOf)) && |Serialized(m, order, nameOf)| <= |order|
    decreases |order|
  {
    if order != [] {
      var rest := order[1..];
      assert Ordered(m, rest) && Naming(rest, nameOf);
      OneEntryPerKey(m, rest, nameOf);
      var es, tail := Serialized(m, order, nameOf), Serialized(m, rest, nameOf);
      if order[0].1.supportsRemote {
        forall i, j | 0 <= i < j < |es| ensures KeyOf(es[i]) != KeyOf(es[j]) {
          assert es[j] == tail[j - 1];
          if i == 0 {
            var k := EntryFrom(m, rest, nameOf, j - 1);
            assert order[k + 1] == rest[k];
          } else {
            assert es[i] == tail[i - 1];
          }
        }
      } else {
        assert es == tail;
      }
    }
  }

  // A local section map whose blob another agent can take: of the lists that are written none is empty or
  // holds a range twice, and the sizes fit the counters of the wire format.
  ghost predicate Sendable(m: Sections, order: seq<SectionKey>, nameOf: Engine -> Blob) {
    && Ordered(m, order) && Naming(order, nameOf) && |order| < TWO_64
    && forall i :: 0 <= i < |order| && order[i].1.supportsRemote ==>
                     SendableList(order[i].0, m[order[i]]) && nameOf(order[i].1) != []
  }

  ghost predicate SendableList(t: MemType, s: seq<SectionDesc>) {
    s != [] && |s| < TWO_64 && Strict(s) && NoZeroLen(t, s)
  }

  // The receiving side: backends of the same names take remote metadata and accept every descriptor.
  ghost predicate Accepting(m: Sections, order: seq<SectionKey>, nameOf: Engine -> Blob, known: Backends,
                            loaders: Loaders)
    requires Ordered(m, order)
  {
    forall i :: 0 <= i < |order| && order[i].1.supportsRemote && nameOf(order[i].1) in known ==>
                  known[nameOf(order[i].1)] && AcceptsAll(m[order[i]], loaders((order[i].0, nameOf(order[i].1))))
  }

  ghost predicate AcceptsAll(s: seq<SectionDesc>, load: Loader) {
    forall i :: 0 <= i < |s| ==> load(Content(s[i])).Loaded?
  }

  lemma ListLoadable(t: MemType, s: seq<SectionDesc>, load: Loader)
    requires SendableList(t, s) && AcceptsAll(s, load)
    ensures Loadable(t, Contents(s), load) && StrictDescs(Contents(s))
  {
  }

  lemma SerializedFits(m: Sections, order: seq<SectionKey>, nameOf: Engine -> Blob, known: Backends, loaders: Loaders)
    requires Sendable(m, order, nameOf) && Accepting(m, order, nameOf, known, loaders)
    ensures var es := Serialized(m, order, nameOf);
            && Encodable(es) && NoneEmpty(es) && OnePerKey(es) && RemoteCapable(known, es)
            && (forall i :: 0 <= i < |es| ==> StrictDescs(es[i].descs))
            && forall i :: 0 <= i < |es| && es[i].backend in known ==>
                             Loadable(es[i].t, es[i].descs, loaders(KeyOf(es[i])))
  {
    hide Strict, NoZeroLen, Loadable, StrictDescs, AcceptsAll, Serialized, OnePerKey;
    var es := Serialized(m, order, nameOf);
    OneEntryPerKey(m, order, nameOf);
    forall i | 0 <= i < |es|
      ensures es[i].backend != [] && es[i].descs != [] && |es[i].descs| < TWO_64 && StrictDescs(es[i].descs)
      ensures es[i].backend in known ==> known[es[i].backend] && Loadable(es[i].t, es[i].descs, loaders(KeyOf(es[i])))
    {
      var j := EntryFrom(m, order, nameOf, i);
      var k := order[j];
      StrictContents(m[k]);
      if nameOf(k.1) in known { ListLoadable(k.0, m[k], loaders((k.0, nameOf(k.1)))); }
    }
  }

  lemma StrictContents(s: seq<SectionDesc>)
    requires Strict(s)
    ensures StrictDescs(Contents(s))
  {
  }

  lemma EntriesLoadable(known: Backends, es: seq<Entry>, loaders: Loaders)
    requires OnePerKey(es)
    requires forall i :: 0 <= i < |es| && es[i].backend in known ==>
                           Loadable(es[i].t, es[i].descs, loaders(KeyOf(es[i])))
    ensures AllLoadable(known, es, loaders)
  {
    hide DescsFor;
    forall k: Key ensures Loadable(k.0, DescsFor(known, es, k), loaders(k)) {
      DescsForOne(known, es, k);
      if DescsFor(known, es, k) != [] {
        var i :| 0 <= i < |es| && KeyOf(es[i]) == k && DescsFor(known, es, k) == es[i].descs;
        if k.1 !in known { DescsForUnknown(known, es, k); }
      }
    }
  }

  lemma {:induction false} DescsForUnknown(known: Backends, es: seq<Entry>, k: Key)
    requires k.1 !in known
    ensures DescsFor(known, es, k) == []
    decreases |es|
  {
    if es != [] { DescsForUnknown(known, es[1..], k); }
  }

  lemma KeyFrom(m: Sections, order: seq<SectionKey>, nameOf: Engine -> Blob, known: Backends, k: Key) returns (j: nat)
    requires Ordered(m, order) && k in KeysOf(known, Serialized(m, order, nameOf))
    ensures k.1 in known && j < |order| && order[j].1.supportsRemote && k == (order[j].0, nameOf(order[j].1))
  {
    hide Serialized;
    var es := Serialized(m, order, nameOf);
    var i :| 0 <= i < |es| && es[i].backend in known && KeyOf(es[i]) == k;
    j := EntryFrom(m, order, nameOf, i);
  }

  // The key of some list that is written, under its backend's name.
  ghost predicate WrittenKey(order: seq<SectionKey>, nameOf: Engine -> Blob, k: Key) {
    exists i :: 0 <= i < |order| && order[i].1.supportsRemote && k == (order[i].0, nameOf(order[i].1))
  }

  /**
   What an agent registered is what another agent knows of it: the list of every backend both share has
   the same descriptors and public metadata, in the same order, and nothing else is there.
   */
  lemma LocalToRemote(m: Sections, order: seq<SectionKey>, nameOf: Engine -> Blob, known: Backends, loaders: Loaders,
                      r: Reader)
    requires Sendable(m, order, nameOf) && Accepting(m, order, nameOf, known, loaders)
    requires Before(r, EncodeSections(Serialized(m, order, nameOf)))
    ensures LoadBlob(known, map[], DecodeSections(r), loaders).Taken?
    ensures var got := LoadBlob(known, map[], DecodeSections(r), loaders).value;
            && (forall i :: 0 <= i < |order| && order[i].1.supportsRemote && nameOf(order[i].1) in known ==>
                              Contents(At(got, (order[i].0, nameOf(order[i].1)))) == Contents(m[order[i]]))
            && (forall k :: k in got ==> k.1 in known && WrittenKey(order, nameOf, k))
  {
    hide LoadBlob, DecodeSections, EncodeSections, Serialized, SendableList, StrictDescs, Loadable, Encodable,
      OnePerKey, AllLoadable;
    var es := Serialized(m, order, nameOf);
    SerializedFits(m, order, nameOf, known, loaders);
    EntriesLoadable(known, es, loaders);
    RoundTrip(known, r, es, loaders);
    var got := LoadBlob(known, map[], DecodeSections(r), loaders).value;
    forall i | 0 <= i < |order| && order[i].1.supportsRemote && nameOf(order[i].1) in known
      ensures Contents(At(got, (order[i].0, nameOf(order[i].1)))) == Contents(m[order[i]])
    {
      var k := (order[i].0, nameOf(order[i].1));
      var e := EntryFor(m, order, nameOf, i);
      assert KeyOf(es[e]) == k;
      ContentsOfSecs(es[e].descs, loaders(k));
    }
    forall k | k in got ensures k.1 in known && WrittenKey(order, nameOf, k) {
      var j := KeyFrom(m, order, nameOf, known, k);
    }
  }

  // Any local section map whose written lists fit the wire format and are normalized, as all are.
  ghost predicate Writable(m: Sections, order: seq<SectionKey>, nameOf: Engine -> Blob) {
    && Ordered(m, order) && Naming(order, nameOf) && |order| < TWO_64
    && forall i :: 0 <= i < |order| && order[i].1.supportsRemote ==>
                     |m[order[i]]| < TWO_64 && NoZeroLen(order[i].0, m[order[i]]) && nameOf(order[i].1) != []
  }

  lemma ContentsLoadable(t: MemType, s: seq<SectionDesc>, load: Loader)
    requires NoZeroLen(t, s) && AcceptsAll(s, load)
    ensures Loadable(t, Contents(s), load)
  {
  }

  lemma WritableFits(m: Sections, order: seq<SectionKey>, nameOf: Engine -> Blob, known: Backends, loaders: Loaders)
    requires Writable(m, order, nameOf) && Accepting(m, order, nameOf, known, loaders)
    ensures var es := Serialized(m, order, nameOf);
            && Encodable(es) && OnePerKey(es) && RemoteCapable(known, es) && AllLoadable(known, es, loaders)
  {
    hide NoZeroLen, Loadable, AcceptsAll, Serialized, OnePerKey, AllLoadable;
    var es := Serialized(m, order, nameOf);
    OneEntryPerKey(m, order, nameOf);
    forall i | 0 <= i < |es|
      ensures es[i].backend != [] && |es[i].descs| < TWO_64
      ensures es[i].backend in known ==> known[es[i].backend] && Loadable(es[i].t, es[i].descs, loaders(KeyOf(es[i])))
    {
      var j := EntryFrom(m, order, nameOf, i);
      var k := order[j];
      if nameOf(k.1) in known { ContentsLoadable(k.0, m[k], loaders((k.0, nameOf(k.1)))); }
    }
    EntriesLoadable(known, es, loaders);
  }

  // No list that is written is empty.
  ghost predicate NothingEmpty(m: Sections, order: seq<SectionKey>)
    requires Ordered(m, order)
  {
    forall i :: 0 <= i < |order| && order[i].1.supportsRemote ==> m[order[i]] != []
  }

  // No list that is taken holds a range twice with different metadata.
  ghost predicate NothingConflicts(m: Sections, order: seq<SectionKey>, nameOf: Engine -> Blob, known: Backends)
    requires Ordered(m, order)
  {
    forall i :: 0 <= i < |order| && order[i].1.supportsRemote && nameOf(order[i].1) in known ==>
                  Coherent(Contents(m[order[i]]))
  }

  lemma NothingEmptyIs(m: Sections, order: seq<SectionKey>, nameOf: Engine -> Blob)
    requires Ordered(m, order)
    ensures NoneEmpty(Serialized(m, order, nameOf)) <==> NothingEmpty(m, order)
  {
    hide Serialized;
    var es := Serialized(m, order, nameOf);
    if NoneEmpty(es) {
      forall i | 0 <= i < |order| && order[i].1.supportsRemote ensures m[order[i]] != [] {
        var e := EntryFor(m, order, nameOf, i);
        assert es[e].descs != [];
      }
    }
    if NothingEmpty(m, order) {
      forall e | 0 <= e < |es| ensures es[e].descs != [] {
        var i := EntryFrom(m, order, nameOf, e);
      }
    }
  }

  // What is written for a list is all there is for its key.
  lemma DescsWritten(m: Sections, order: seq<SectionKey>, nameOf: Engine -> Blob, known: Backends, i: nat)
    requires Ordered(m, order) && Naming(order, nameOf)
    requires i < |order| && order[i].1.supportsRemote && nameOf(order[i].1) in known
    ensures DescsFor(known, Serialized(m, order, nameOf), (order[i].0, nameOf(order[i].1))) == Contents(m[order[i]])
  {
    hide Serialized, DescsFor, OnePerKey;
    var es := Serialized(m, order, nameOf);
    OneEntryPerKey(m, order, nameOf);
    var e := EntryFor(m, order, nameOf, i);
    DescsForOne(known, es, (order[i].0, nameOf(order[i].1)));
    assert KeyOf(es[e]) == (order[i].0, nameOf(order[i].1));
  }

  lemma NothingConflictsIs(m: Sections, order: seq<SectionKey>, nameOf: Engine -> Blob, known: Backends)
    requires Ordered(m, order) && Naming(order, nameOf)
    ensures (forall k :: Coherent(DescsFor(known, Serialized(m, order, nameOf), k)))
            <==> NothingConflicts(m, order, nameOf, known)
  {
    hide Serialized, DescsFor, Coherent, Naming;
    var es := Serialized(m, order, nameOf);
    if NothingConflicts(m, order, nameOf, known) {
      forall k ensures Coherent(DescsFor(known, es, k)) {
        TakenCoherent(m, order, nameOf, known, k);
      }
    } else {
      var i :| 0 <= i < |order| && order[i].1.supportsRemote && nameOf(order[i].1) in known
               && !Coherent(Contents(m[order[i]]));
      DescsWritten(m, order, nameOf, known, i);
      assert !Coherent(DescsFor(known, es, (order[i].0, nameOf(order[i].1))));
    }
  }

  lemma TakenCoherent(m: Sections, order: seq<SectionKey>, nameOf: Engine -> Blob, known: Backends, k: Key)
    requires Ordered(m, order) && Naming(order, nameOf) && NothingConflicts(m, order, nameOf, known)
    ensures Coherent(DescsFor(known, Serialized(m, order, nameOf), k))
  {
    hide Serialized, DescsFor, OnePerKey, Coherent, Naming;
    var es := Serialized(m, order, nameOf);
    OneEntryPerKey(m, order, nameOf);
    DescsForOne(known, es, k);
    if DescsFor(known, es, k) == [] {
      CoherentNone();
    } else {
      var e :| 0 <= e < |es| && KeyOf(es[e]) == k && DescsFor(known, es, k) == es[e].descs;
      var i := EntryFrom(m, order, nameOf, e);
      if k.1 !in known { DescsForUnknown(known, es, k); }
    }
  }

  lemma CoherentNone()
    ensures Coherent([])
  {
  }

  /**
   Exactly when another agent can take an agent's blob, for any section map, repeated ranges included: no
   list that is written is empty, and none that is taken holds a range twice with different metadata. Each
   list then arrives with every range of its own, once, in order, and nothing else is there.
   */
  lemma LocalToRemoteIff(m: Sections, order: seq<SectionKey>, nameOf: Engine -> Blob, known: Backends, loaders: Loaders,
                         r: Reader)
    requires Writable(m, order, nameOf) && Accepting(m, order, nameOf, known, loaders)
    requires Before(r, EncodeSections(Serialized(m, order, nameOf)))
    ensures LoadBlob(known, map[], DecodeSections(r), loaders).Taken?
            <==> NothingEmpty(m, order) && NothingConflicts(m, order, nameOf, known)
    ensures LoadBlob(known, map[], DecodeSections(r), loaders).Taken? ==>
              var got := LoadBlob(known, map[], DecodeSections(r), loaders).value;
              && (forall i :: 0 <= i < |order| && order[i].1.supportsRemote && nameOf(order[i].1) in known ==>
                                ArrivedAs(got, (order[i].0, nameOf(order[i].1)), m[order[i]], loaders))
              && (forall k :: k in got ==> k.1 in known && WrittenKey(order, nameOf, k))
  {
    hide LoadBlob, DecodeSections, EncodeSections, Serialized, Naming, Encodable, OnePerKey, AllLoadable, Coherent,
      NoneEmpty, NothingEmpty, NothingConflicts, DescsFor, Strict;
    var es := Serialized(m, order, nameOf);
    WritableFits(m, order, nameOf, known, loaders);
    RoundTripIff(known, r, es, loaders);
    NothingEmptyIs(m, order, nameOf);
    NothingConflictsIs(m, order, nameOf, known);
    if LoadBlob(known, map[], DecodeSections(r), loaders).Taken? {
      var got := LoadBlob(known, map[], DecodeSections(r), loaders).value;
      forall i | 0 <= i < |order| && order[i].1.supportsRemote && nameOf(order[i].1) in known
        ensures ArrivedAs(got, (order[i].0, nameOf(order[i].1)), m[order[i]], loaders)
      {
        DescsWritten(m, order, nameOf, known, i);
        var k := (order[i].0, nameOf(order[i].1));
        assert Strict(At(got, k));
        assert Elems(At(got, k)) == Elems(At(map[], k)) + Elems(Secs(DescsFor(known, es, k), loaders(k)));
      }
      forall k | k in got ensures k.1 in known && WrittenKey(order, nameOf, k) {
        var j := KeyFrom(m, order, nameOf, known, k);
      }
    }
  }

  // The list holds exactly the sections that the descriptors of s are loaded as, each range once, in order.
  ghost predicate ArrivedAs(got: Remote, k: Key, s: seq<SectionDesc>, loaders: Loaders) {
    Strict(At(got, k)) && Elems(At(got, k)) == Elems(Secs(Contents(s), loaders(k)))
  }

  // What an agent's list of the other agent holds for a section that was registered there.
  ghost predicate KnownAs(y: SectionDesc, x: SectionDesc, e: Engine, load: Loader) {
    && y.basic == x.basic && y.blob == e.publicData(x.meta)
    && load(BlobDesc(x.basic, e.publicData(x.meta))) == Loaded(y.meta)
  }

  /**
   What arrives is what the backend published: whoever takes the blob of a registered section map holds for
   every section of a shared backend its range with the backend's public data of the metadata that was
   registered for that range, loaded from exactly that, and holds nothing else.
   */
  lemma PublicDataArrives(m: Sections, engines: set<Engine>, order: seq<SectionKey>, nameOf: Engine -> Blob,
                          known: Backends, loaders: Loaders, r: Reader, i: nat)
    requires Kept(m, engines) && Writable(m, order, nameOf) && Accepting(m, order, nameOf, known, loaders)
    requires Before(r, EncodeSections(Serialized(m, order, nameOf)))
    requires LoadBlob(known, map[], DecodeSections(r), loaders).Taken?
    requires i < |order| && order[i].1.supportsRemote && nameOf(order[i].1) in known
    ensures var (t, e) := order[i];
            var key := (t, nameOf(e));
            var list := At(LoadBlob(known, map[], DecodeSections(r), loaders).value, key);
            && (forall x :: x in m[order[i]] ==>
                  NormalizeQuery(t, e.registeredFor(x.meta).1) == x.basic
                  && exists y :: y in list && KnownAs(y, x, e, loaders(key)))
            && (forall y :: y in list ==> exists x :: x in m[order[i]] && KnownAs(y, x, e, loaders(key)))
  {
    hide LoadBlob, DecodeSections, EncodeSections, Serialized, Naming, NoZeroLen, Sorted, Strict, NothingEmpty,
      NothingConflicts;
    LocalToRemoteIff(m, order, nameOf, known, loaders, r);
    var (t, e) := order[i];
    var key, load := (t, nameOf(e)), loaders((t, nameOf(e)));
    var got, s := LoadBlob(known, map[], DecodeSections(r), loaders).value, m[order[i]];
    assert ArrivedAs(got, key, s, loaders) && Genuine(t, e, s) && AcceptsAll(s, load);
    ArrivesPublished(t, e, s, load, At(got, key));
  }

  lemma ArrivesPublished(t: MemType, e: Engine, s: seq<SectionDesc>, load: Loader, list: seq<SectionDesc>)
    requires Genuine(t, e, s) && AcceptsAll(s, load) && e.supportsRemote
    requires Elems(list) == Elems(Secs(Contents(s), load))
    ensures forall x :: x in s ==>
              NormalizeQuery(t, e.registeredFor(x.meta).1) == x.basic && exists y :: y in list && KnownAs(y, x, e, load)
    ensures forall y :: y in list ==> exists x :: x in s && KnownAs(y, x, e, load)
  {
    hide NormalizeQuery;
    var secs := Secs(Contents(s), load);
    forall x | x in s
      ensures NormalizeQuery(t, e.registeredFor(x.meta).1) == x.basic
      ensures exists y :: y in list && KnownAs(y, x, e, load)
    {
      var j :| 0 <= j < |s| && s[j] == x;
      assert IsGenuine(t, e, x) && secs[j] in Elems(list) && KnownAs(secs[j], x, e, load);
    }
    forall y | y in list ensures exists x :: x in s && KnownAs(y, x, e, load) {
      assert y in Elems(secs);
      var j :| 0 <= j < |secs| && secs[j] == y;
      assert IsGenuine(t, e, s[j]) && KnownAs(y, s[j], e, load);
    }
  }

  lemma ContentsOfSecs(descs: seq<BlobDesc>, load: Loader)
    ensures Contents(Secs(descs, load)) == descs
  {
  }

  // ---- Partial blobs ----

  // Every list of `part` is a choice from the list of the same key.
  ghost predicate Chosen(part: Sections, partOrder: seq<SectionKey>, m: Sections, order: seq<SectionKey>,
                         mem: seq<BasicDesc>) {
    && Ordered(part, partOrder) && Ordered(m, order)
    && (forall i :: 0 <= i < |partOrder| ==> partOrder[i] in order)
    && forall i :: 0 <= i < |partOrder| ==> PartOf(part[partOrder[i]], m[partOrder[i]], partOrder[i].0, mem)
  }

  lemma PartWithin(part: seq<SectionDesc>, s: seq<SectionDesc>)
    requires forall x :: x in part ==> x in s
    ensures Within(Contents(part), Contents(s))
  {
    forall i | 0 <= i < |part| ensures Contents(part)[i] in Contents(s) {
      assert part[i] in part;
      var j :| 0 <= j < |s| && s[j] == part[i];
      assert Contents(s)[j] == Contents(part)[i];
    }
  }

  // An entry of the partial blob has a counterpart in the full one that holds all it holds.
  lemma Counterpart(part: Sections, partOrder: seq<SectionKey>, m: Sections, order: seq<SectionKey>,
                    mem: seq<BasicDesc>, nameOf: Engine -> Blob, i: nat)
    returns (j: nat)
    requires Chosen(part, partOrder, m, order, mem) && i < |Serialized(part, partOrder, nameOf)|
    ensures var ps, es := Serialized(part, partOrder, nameOf), Serialized(m, order, nameOf);
            j < |es| && KeyOf(es[j]) == KeyOf(ps[i]) && Within(ps[i].descs, es[j].descs)
  {
    hide Serialized, Within;
    var p := EntryFrom(part, partOrder, nameOf, i);
    var k := partOrder[p];
    var q :| 0 <= q < |order| && order[q] == k;
    j := EntryFor(m, order, nameOf, q);
    PartWithin(part[k], m[k]);
  }

  lemma {:induction false} DescsForWithin(known: Backends, ps: seq<Entry>, k: Key, all: seq<BlobDesc>)
    requires forall i :: 0 <= i < |ps| && KeyOf(ps[i]) == k && k.1 in known ==> Within(ps[i].descs, all)
    ensures Within(DescsFor(known, ps, k), all)
    decreases |ps|
  {
    if ps != [] {
      assert forall i :: 0 <= i < |ps[1..]| ==> ps[1..][i] == ps[i + 1];
      DescsForWithin(known, ps[1..], k, all);
    }
  }

  lemma WithinLoadable(t: MemType, a: seq<BlobDesc>, b: seq<BlobDesc>, load: Loader)
    requires Within(a, b) && Loadable(t, b, load)
    ensures Loadable(t, a + b, load)
  {
  }

  // The entries of ps are parts of those of es.
  ghost predicate PartialOf(ps: seq<Entry>, es: seq<Entry>) {
    forall i :: 0 <= i < |ps| ==> HasWhole(ps[i], es)
  }

  ghost predicate HasWhole(p: Entry, es: seq<Entry>) {
    exists j :: 0 <= j < |es| && KeyOf(es[j]) == KeyOf(p) && Within(p.descs, es[j].descs)
  }

  lemma PartialDescs(known: Backends, ps: seq<Entry>, es: seq<Entry>, loaders: Loaders)
    requires PartialOf(ps, es) && OnePerKey(es) && RemoteCapable(known, es) && AllLoadable(known, es, loaders)
    ensures RemoteCapable(known, ps + es) && AllLoadable(known, ps + es, loaders)
            && KeysOf(known, ps) <= KeysOf(known, es)
    ensures forall k :: Within(DescsFor(known, ps, k), DescsFor(known, es, k))
  {
    hide DescsFor, Loadable, Within;
    forall k: Key
      ensures Within(DescsFor(known, ps, k), DescsFor(known, es, k))
              && Loadable(k.0, DescsFor(known, ps + es, k), loaders(k))
    {
      DescsForOne(known, es, k);
      DescsForWithin(known, ps, k, DescsFor(known, es, k));
      DescsForAppend(known, ps, es, k);
      WithinLoadable(k.0, DescsFor(known, ps, k), DescsFor(known, es, k), loaders(k));
    }
    forall k | k in KeysOf(known, ps) ensures k in KeysOf(known, es) {
      var i :| 0 <= i < |ps| && ps[i].backend in known && KeyOf(ps[i]) == k;
      var j :| 0 <= j < |es| && KeyOf(es[j]) == KeyOf(ps[i]) && Within(ps[i].descs, es[j].descs);
      assert es[j] in es;
    }
    forall i | 0 <= i < |ps + es| && (ps + es)[i].backend in known ensures known[(ps + es)[i].backend] {
      if i < |ps| {
        assert (ps + es)[i] == ps[i];
        var j :| 0 <= j < |es| && KeyOf(es[j]) == KeyOf(ps[i]) && Within(ps[i].descs, es[j].descs);
      }
    }
  }

  // A partial blob loaded before the full one leaves the remote section as the full one alone does.
  lemma PartialEntriesFirst(part: Sections, partOrder: seq<SectionKey>, m: Sections, order: seq<SectionKey>,
                            mem: seq<BasicDesc>, nameOf: Engine -> Blob, known: Backends, loaders: Loaders,
                            before: Remote)
    requires Sendable(m, order, nameOf) && Accepting(m, order, nameOf, known, loaders)
    requires Chosen(part, partOrder, m, order, mem) && Held(before, loaders)
    ensures var ps, es := Serialized(part, partOrder, nameOf), Serialized(m, order, nameOf);
            var both, full := LoadEntries(known, before, ps + es, loaders), LoadEntries(known, before, es, loaders);
            (both.Done? <==> full.Done?) && (full.Done? ==> both == full)
  {
    hide Serialized, LoadEntries, Loadable, Within, Held, SendableList, StrictDescs, AllLoadable, DescsFor, OnePerKey,
      RemoteCapable, Encodable;
    var ps, es := Serialized(part, partOrder, nameOf), Serialized(m, order, nameOf);
    SerializedFits(m, order, nameOf, known, loaders);
    EntriesLoadable(known, es, loaders);
    forall i | 0 <= i < |ps| ensures HasWhole(ps[i], es) {
      var j := Counterpart(part, partOrder, m, order, mem, nameOf, i);
    }
    PartialDescs(known, ps, es, loaders);
    PartialThenFull(known, before, ps, es, loaders);
  }

  lemma ChosenNaming(part: Sections, partOrder: seq<SectionKey>, m: Sections, order: seq<SectionKey>,
                     mem: seq<BasicDesc>, nameOf: Engine -> Blob)
    requires Chosen(part, partOrder, m, order, mem) && Naming(order, nameOf)
    ensures Naming(partOrder, nameOf)
  {
    forall i, j | 0 <= i < |partOrder| && 0 <= j < |partOrder|
                  && partOrder[i].1.supportsRemote && partOrder[j].1.supportsRemote
                  && nameOf(partOrder[i].1) == nameOf(partOrder[j].1)
      ensures partOrder[i].1 == partOrder[j].1
    {
      var p :| 0 <= p < |order| && order[p] == partOrder[i];
      var q :| 0 <= q < |order| && order[q] == partOrder[j];
    }
  }

  // The entries of a partial blob can be written and read back.
  lemma PartialFits(part: Sections, partOrder: seq<SectionKey>, m: Sections, order: seq<SectionKey>,
                    mem: seq<BasicDesc>, nameOf: Engine -> Blob)
    requires Sendable(m, order, nameOf) && Chosen(part, partOrder, m, order, mem)
    requires mem != [] && |mem| < TWO_64 && |partOrder| < TWO_64
    ensures Encodable(Serialized(part, partOrder, nameOf)) && NoneEmpty(Serialized(part, partOrder, nameOf))
  {
    hide Serialized, SendableList, OnePerKey, Naming, HoldingAll;
    var ps := Serialized(part, partOrder, nameOf);
    ChosenNaming(part, partOrder, m, order, mem, nameOf);
    OneEntryPerKey(part, partOrder, nameOf);
    forall i | 0 <= i < |ps| ensures ps[i].backend != [] && |ps[i].descs| == |mem| {
      var p := EntryFrom(part, partOrder, nameOf, i);
      var q :| 0 <= q < |order| && order[q] == partOrder[p];
    }
  }

  /**
   Partial blobs accumulate, on the bytes that are sent: a remote section that takes the full blob takes a
   partial one before it, and then the full one leaves it as it would have alone.
   */
  lemma PartialFirst(part: Sections, partOrder: seq<SectionKey>, m: Sections, order: seq<SectionKey>,
                     mem: seq<BasicDesc>, nameOf: Engine -> Blob, known: Backends, loaders: Loaders, before: Remote,
                     r: Reader, r': Reader)
    requires Sendable(m, order, nameOf) && Accepting(m, order, nameOf, known, loaders)
    requires Chosen(part, partOrder, m, order, mem) && Held(before, loaders)
    requires mem != [] && |mem| < TWO_64 && |partOrder| < TWO_64
    requires Before(r, EncodeSections(Serialized(part, partOrder, nameOf)))
    requires Before(r', EncodeSections(Serialized(m, order, nameOf)))
    ensures var first := LoadBlob(known, before, DecodeSections(r), loaders);
            var full := LoadBlob(known, before, DecodeSections(r'), loaders);
            && (full.Taken? ==> first.Taken? && LoadBlob(known, first.value, DecodeSections(r'), loaders) == full)
            && (first.Taken? && LoadBlob(known, first.value, DecodeSections(r'), loaders).Taken? ==> full.Taken?)
  {
    hide Serialized, LoadEntries, LoadRead, Held, SendableList, Naming, Accepting, PartOf, DecodeSections,
      EncodeSections,
      Encodable, NoneEmpty;
    var ps, es := Serialized(part, partOrder, nameOf), Serialized(m, order, nameOf);
    PartialFits(part, partOrder, m, order, mem, nameOf);
    SerializedFits(m, order, nameOf, known, loaders);
    SectionsRoundTripIff(r, ps);
    SectionsRoundTripIff(r', es);
    PartialEntriesFirst(part, partOrder, m, order, mem, nameOf, known, loaders, before);
    LoadAppend(known, before, ps, es, loaders);
    ReadsAreEntries(known, before, ps, loaders);
    ReadsAreEntries(known, before, es, loaders);
    var first := LoadEntries(known, before, ps, loaders);
    if first.Done? { ReadsAreEntries(known, first.value, es, loaders); }
  }

  // ---- Transfers to registered memory ----

  // Lists with the same contents cover the same queries.
  lemma SameCoverage(a: seq<SectionDesc>, b: seq<SectionDesc>, query: seq<BasicDesc>)
    requires Contents(a) == Contents(b)
    ensures Registered(a) <==> Registered(b)
    ensures AllCovered(a, query) <==> AllCovered(b, query)
  {
    assert |a| == |b| && forall i :: 0 <= i < |a| ==> a[i].basic == b[i].basic by {
      forall i | 0 <= i < |a| ensures a[i].basic == b[i].basic {
        assert Contents(a)[i] == Contents(b)[i];
      }
    }
    CoveredSame(a, b, query);
    CoveredSame(b, a, query);
  }

  lemma CoveredSame(a: seq<SectionDesc>, b: seq<SectionDesc>, query: seq<BasicDesc>)
    requires |a| == |b| && forall i :: 0 <= i < |a| ==> a[i].basic == b[i].basic
    ensures AllCovered(a, query) ==> AllCovered(b, query)
  {
    if AllCovered(a, query) {
      forall i | 0 <= i < |query| ensures Covered(b, query[i]) {
        assert Covered(a, query[i]);
        var k :| 0 <= k < |a| && Covers(a[k].basic, query[i]);
        assert Covers(b[k].basic, query[i]);
      }
    }
  }

  // What the initiating agent finds for one of its backends: its own list, and the list it knows of the
  // other agent under the backend's name.
  function Candidate(mine: Sections, lt: MemType, e: Engine, got: Remote, rt: MemType, name: Blob, notif: bool)
    : Backend
  {
    Backend(if (lt, e) in mine then Some(mine[(lt, e)]) else None,
            if (rt, name) in got then Some(got[(rt, name)]) else None, notif)
  }

  /**
   Registration makes memory transferable: for an agent that has loaded another agent's blob, a backend
   serves a pair of lists exactly when the initiator registered the local one with it and the other agent
   registered the remote one with its backend of that name.
   */
  lemma RegisteredIsServed(m: Sections, order: seq<SectionKey>, nameOf: Engine -> Blob, known: Backends,
                           loaders: Loaders, r: Reader, i: nat, mine: Sections, lt: MemType, e: Engine, notif: bool,
                           local: seq<BasicDesc>, remote: seq<BasicDesc>)
    requires Sendable(m, order, nameOf) && Accepting(m, order, nameOf, known, loaders)
    requires Before(r, EncodeSections(Serialized(m, order, nameOf)))
    requires i < |order| && order[i].1.supportsRemote && nameOf(order[i].1) in known
    ensures LoadBlob(known, map[], DecodeSections(r), loaders).Taken?
    ensures var got := LoadBlob(known, map[], DecodeSections(r), loaders).value;
            var b := Candidate(mine, lt, e, got, order[i].0, nameOf(order[i].1), notif);
            && (Registered(Base(b.remote)) <==> Registered(m[order[i]]))
            && (Serves(b, local, remote) <==>
                && local != [] && AllCovered(ListAt(mine, lt, e), local)
                && remote != [] && AllCovered(m[order[i]], remote))
  {
    hide LoadBlob, DecodeSections, EncodeSections, Serialized, SendableList, Naming, Accepting, Registered, AllCovered;
    LocalToRemote(m, order, nameOf, known, loaders, r);
    var got := LoadBlob(known, map[], DecodeSections(r), loaders).value;
    SameCoverage(At(got, (order[i].0, nameOf(order[i].1))), m[order[i]], remote);
  }
}
