/**
 The byte form of section lists: a list is a type tag, its memory type, its length, and one field per
 descriptor, holding the raw descriptor followed by its public metadata.
 */
module MetadataBlob {
  import opened MachineInt
  import opened Descriptors
  import opened SerDes

  // nixlBlobDesc: what a section descriptor becomes on the other side.
  datatype BlobDesc = BlobDesc(basic: BasicDesc, info: Blob)

  const BASIC_BYTES: nat := 24
  const TYPE_BYTES: nat := 4
  const TAG_LIST: Blob := Bytes("nixlDList")
  const TAG_TYPE: Blob := Bytes("t")
  const TAG_COUNT: Blob := Bytes("n")
  const TAG_SECTIONS: Blob := Bytes("nixlSecElms")
  const TAG_BACKEND: Blob := Bytes("bknd")
  const KIND: Blob := Bytes("nixlSDList")

  function TypeCode(t: MemType): nat {
    match t
    case DRAM => 0
    case VRAM => 1
    case BLK => 2
    case OBJ => 3
    case FILE => 4
  }

  // A memory type read back; codes outside the enumeration stay undecoded.
  datatype ReadType = Known(t: MemType) | Foreign(code: nat)

  function DecodeType(code: nat): ReadType {
    match code
    case 0 => Known(DRAM)
    case 1 => Known(VRAM)
    case 2 => Known(BLK)
    case 3 => Known(OBJ)
    case 4 => Known(FILE)
    case _ => Foreign(code)
  }

  function EncodeDesc(d: BlobDesc): (bs: Blob)
    ensures |bs| == BASIC_BYTES + |d.info|
  {
    Encode(d.basic.addr, 8) + Encode(d.basic.len, 8) + Encode(d.basic.devId, 8) + d.info
  }

  // nixlBlobDesc(blob), for blobs that hold at least the raw descriptor.
  function DecodeDesc(bs: Blob): BlobDesc
    requires |bs| >= BASIC_BYTES
  {
    DecodeBound(bs[..8]);
    DecodeBound(bs[8..16]);
    DecodeBound(bs[16..24]);
    BlobDesc(BasicDesc(Decode(bs[..8]), Decode(bs[8..16]), Decode(bs[16..24])), bs[24..])
  }

  lemma DecodeBound(bs: Blob)
    requires |bs| == 8
    ensures Decode(bs) < TWO_64
  {
    SizesFit();
    DecodeBelow(bs);
  }

  lemma {:induction false} DecodeBelow(bs: Blob)
    ensures Decode(bs) < Pow256(|bs|)
  {
    if bs != [] { DecodeBelow(bs[1..]); }
  }

  lemma DescRoundTrip(d: BlobDesc)
    ensures DecodeDesc(EncodeDesc(d)) == d
  {
    hide Encode, Decode;
    var bs := EncodeDesc(d);
    assert bs[..8] == Encode(d.basic.addr, 8) && bs[8..16] == Encode(d.basic.len, 8);
    assert bs[16..24] == Encode(d.basic.devId, 8);
    assert bs[24..] == d.info;
    SizeRoundTrip(d.basic.addr);
    SizeRoundTrip(d.basic.len);
    SizeRoundTrip(d.basic.devId);
  }

  function EncodeDescs(descs: seq<BlobDesc>): Blob {
    if descs == [] then [] else Field([], EncodeDesc(descs[0])) + EncodeDescs(descs[1..])
  }

  function EncodeList(t: MemType, descs: seq<BlobDesc>): Blob {
    Field(TAG_LIST, KIND) + (Field(TAG_TYPE, Encode(TypeCode(t), TYPE_BYTES)) +
    (Field(TAG_COUNT, Encode(|descs|, SIZE_BYTES)) + EncodeDescs(descs)))
  }

  datatype ReadList = ReadList(t: ReadType, descs: seq<BlobDesc>, rest: Reader)

  // The descriptors of a list; a value too short for a descriptor voids the whole list.
  function DecodeDescs(r: Reader, n: nat): (res: (seq<BlobDesc>, bool, Reader))
    requires |r.bytes| < TWO_64
    ensures res.2.bytes == r.bytes
    decreases n
  {
    if n == 0 then ([], true, r)
    else
      var (v, r') := GetStr(r, []);
      if |v| < BASIC_BYTES then ([], false, r')
      else
        var (ds, ok, rest) := DecodeDescs(r', n - 1);
        if ok then ([DecodeDesc(v)] + ds, true, rest) else ([], false, rest)
  }

  // The deserializing constructor of a registration list; any mismatch leaves the list empty.
  function DecodeList(r: Reader): (res: ReadList)
    requires |r.bytes| < TWO_64
    ensures res.rest.bytes == r.bytes
  {
    var (kind, r1) := GetStr(r, TAG_LIST);
    if kind == [] then ReadList(Foreign(0), [], r1)
    else
      var b := GetBuf(r1, TAG_TYPE, TYPE_BYTES);
      if b.BadBuf? then ReadList(Foreign(0), [], r1)
      else
        var t := DecodeType(Decode(b.value));
        var c := GetBuf(b.rest, TAG_COUNT, SIZE_BYTES);
        if c.BadBuf? then ReadList(t, [], b.rest)
        else if kind != KIND then ReadList(t, [], c.rest)
        else
          var (ds, ok, rest) := DecodeDescs(c.rest, Decode(c.value));
          ReadList(t, ds, rest)
  }

  lemma {:induction false} DescsRoundTrip(r: Reader, descs: seq<BlobDesc>)
    requires Before(r, EncodeDescs(descs))
    ensures r.offset + |EncodeDescs(descs)| <= |r.bytes|
    ensures DecodeDescs(r, |descs|) == (descs, true, Advance(r, |EncodeDescs(descs)|))
    decreases |descs|
  {
    hide Field, GetStr, EncodeDesc, DecodeDesc;
    if descs != [] {
      var v := EncodeDesc(descs[0]);
      BeforeParts(r, Field([], v), EncodeDescs(descs[1..]));
      FieldRoundTrip(r, [], v);
      DescRoundTrip(descs[0]);
      DescsRoundTrip(Advance(r, |Field([], v)|), descs[1..]);
      assert [descs[0]] + descs[1..] == descs;
    }
  }

  // The next n strings without a tag.
  function Values(r: Reader, n: nat): (vs: seq<Blob>)
    requires |r.bytes| < TWO_64
    ensures |vs| == n
    decreases n
  {
    if n == 0 then [] else [GetStr(r, []).0] + Values(GetStr(r, []).1, n - 1)
  }

  ghost predicate LongEnough(vs: seq<Blob>) {
    forall i :: 0 <= i < |vs| ==> |vs[i]| >= BASIC_BYTES
  }

  /** Descriptors are read from all values or, if any is too short for one, from none. */
  lemma {:induction false} DescsOutcome(r: Reader, n: nat)
    requires |r.bytes| < TWO_64
    ensures var (ds, ok, _) := DecodeDescs(r, n);
            && (ok <==> LongEnough(Values(r, n))) && |ds| == (if ok then n else 0)
            && (ok ==> forall i :: 0 <= i < n ==> ds[i] == DecodeDesc(Values(r, n)[i]))
    decreases n
  {
    hide GetStr, DecodeDesc;
    if n > 0 {
      var (v, r') := GetStr(r, []);
      DescsOutcome(r', n - 1);
      LongEnoughCons(v, Values(r', n - 1));
      assert forall i :: 0 < i < n ==> Values(r, n)[i] == Values(r', n - 1)[i - 1];
    }
  }

  lemma LongEnoughCons(v: Blob, vs: seq<Blob>)
    ensures LongEnough([v] + vs) <==> |v| >= BASIC_BYTES && LongEnough(vs)
  {
    var all := [v] + vs;
    if LongEnough(all) {
      forall i | 0 <= i < |vs| ensures |vs[i]| >= BASIC_BYTES { assert all[i + 1] == vs[i]; }
      assert all[0] == v;
    }
  }

  /**
   A list is read exactly when a registration list with a memory type and a positive count stands there and
   every one of that many values is long enough; anything else leaves the list empty.
   */
  lemma ListOutcome(r: Reader)
    requires |r.bytes| < TWO_64
    ensures var (kind, r1) := GetStr(r, TAG_LIST);
            var t := GetBuf(r1, TAG_TYPE, TYPE_BYTES);
            DecodeList(r).descs != [] <==>
            && kind == KIND && t.Buf?
            && var c := GetBuf(t.rest, TAG_COUNT, SIZE_BYTES);
            && c.Buf? && Decode(c.value) > 0 && LongEnough(Values(c.rest, Decode(c.value)))
    ensures DecodeList(r).descs != [] ==>
              var t := GetBuf(GetStr(r, TAG_LIST).1, TAG_TYPE, TYPE_BYTES);
              var c := GetBuf(t.rest, TAG_COUNT, SIZE_BYTES);
              && DecodeList(r).t == DecodeType(Decode(t.value)) && |DecodeList(r).descs| == Decode(c.value)
              && forall i :: 0 <= i < |DecodeList(r).descs| ==>
                   DecodeList(r).descs[i] == DecodeDesc(Values(c.rest, Decode(c.value))[i])
  {
    hide GetStr, GetBuf, DecodeDesc, DecodeDescs, Decode, LongEnough, DecodeType;
    var b := GetBuf(GetStr(r, TAG_LIST).1, TAG_TYPE, TYPE_BYTES);
    if b.Buf? {
      var c := GetBuf(b.rest, TAG_COUNT, SIZE_BYTES);
      if c.Buf? {
        DescsOutcome(c.rest, Decode(c.value));
        if LongEnough(Values(c.rest, Decode(c.value))) { AllLong(c.rest, Decode(c.value)); }
      }
    }
  }

  lemma AllLong(r: Reader, n: nat)
    requires |r.bytes| < TWO_64 && LongEnough(Values(r, n))
    ensures forall i :: 0 <= i < n ==> |Values(r, n)[i]| >= BASIC_BYTES
  {
  }

  lemma TypeRoundTrip(t: MemType)
    ensures DecodeType(Decode(Encode(TypeCode(t), TYPE_BYTES))) == Known(t)
  {
    SizesFit();
    DecodeEncode(TypeCode(t), TYPE_BYTES);
  }

  /** A list that was written is read back whole, and the reader ends up just past it. */
  lemma ListRoundTrip(r: Reader, t: MemType, descs: seq<BlobDesc>)
    requires Before(r, EncodeList(t, descs)) && |descs| < TWO_64
    ensures r.offset + |EncodeList(t, descs)| <= |r.bytes|
    ensures DecodeList(r) == ReadList(Known(t), descs, Advance(r, |EncodeList(t, descs)|))
  {
    hide Field, GetStr, GetBuf, EncodeDescs, DecodeDescs, Encode, Decode;
    var kind, ty := Field(TAG_LIST, KIND), Field(TAG_TYPE, Encode(TypeCode(t), TYPE_BYTES));
    var count := Field(TAG_COUNT, Encode(|descs|, SIZE_BYTES));
    var body := EncodeDescs(descs);
    BeforeParts(r, kind, ty + (count + body));
    FieldRoundTrip(r, TAG_LIST, KIND);
    var r1 := Advance(r, |kind|);
    BeforeParts(r1, ty, count + body);
    FieldRoundTrip(r1, TAG_TYPE, Encode(TypeCode(t), TYPE_BYTES));
    TypeRoundTrip(t);
    var r2 := Advance(r1, |ty|);
    BeforeParts(r2, count, body);
    FieldRoundTrip(r2, TAG_COUNT, Encode(|descs|, SIZE_BYTES));
    SizeRoundTrip(|descs|);
    DescsRoundTrip(Advance(r2, |count|), descs);
  }

  // ---- Sections ----

  // One entry of the section map: memory type, backend name and descriptors.
  datatype Entry = Entry(t: MemType, backend: Blob, descs: seq<BlobDesc>)

  function EncodeEntries(entries: seq<Entry>): Blob {
    if entries == [] then []
    else
      var e := entries[0];
      Field(TAG_BACKEND, e.backend) + (EncodeList(e.t, e.descs) + EncodeEntries(entries[1..]))
  }

  // serializeSections, over the remote-capable entries in map order.
  function EncodeSections(entries: seq<Entry>): Blob {
    Field(TAG_SECTIONS, Encode(|entries|, SIZE_BYTES)) + EncodeEntries(entries)
  }

  type Failure = s: Status | s.IsError() witness Unknown

  // An entry as it is read: its memory type may be any code.
  datatype ReadEntry = ReadEntry(t: ReadType, backend: Blob, descs: seq<BlobDesc>)
  datatype ReadEntries = Entries(entries: seq<ReadEntry>) | Failed(read: seq<ReadEntry>, error: Failure)

  function AsReadOne(e: Entry): ReadEntry {
    ReadEntry(Known(e.t), e.backend, e.descs)
  }

  function AsRead(entries: seq<Entry>): (r: seq<ReadEntry>)
    ensures |r| == |entries| && forall i :: 0 <= i < |r| ==> r[i] == AsReadOne(entries[i])
  {
    seq(|entries|, i requires 0 <= i < |entries| => AsReadOne(entries[i]))
  }

  // The loop of loadRemoteData, reading entry by entry. What was read before a failure has been loaded
  // by then.
  function DecodeEntries(r: Reader, n: nat): ReadEntries
    requires |r.bytes| < TWO_64
    decreases n
  {
    if n == 0 then Entries([])
    else
      var (name, r1) := GetStr(r, TAG_BACKEND);
      if name == [] then Failed([], InvalidParam)
      else
        var l := DecodeList(r1);
        if l.descs == [] then Failed([], NotFound)
        else
          var e := ReadEntry(l.t, name, l.descs);
          match DecodeEntries(l.rest, n - 1)
          case Entries(es) => Entries([e] + es)
          case Failed(es, st) => Failed([e] + es, st)
  }

  function DecodeSections(r: Reader): ReadEntries
    requires |r.bytes| < TWO_64
  {
    var b := GetBuf(r, TAG_SECTIONS, SIZE_BYTES);
    if b.BadBuf? then Failed([], Mismatch) else DecodeEntries(b.rest, Decode(b.value))
  }

  // Entries before the first empty one.
  function UpToEmpty(entries: seq<Entry>): seq<Entry> {
    if entries == [] || entries[0].descs == [] then [] else [entries[0]] + UpToEmpty(entries[1..])
  }

  ghost predicate NoneEmpty(entries: seq<Entry>) {
    forall i :: 0 <= i < |entries| ==> entries[i].descs != []
  }

  ghost predicate Encodable(entries: seq<Entry>) {
    |entries| < TWO_64 && forall i :: 0 <= i < |entries| ==> entries[i].backend != [] && |entries[i].descs| < TWO_64
  }

  lemma {:induction false} EntriesRoundTrip(r: Reader, entries: seq<Entry>)
    requires Before(r, EncodeEntries(entries)) && Encodable(entries)
    ensures DecodeEntries(r, |entries|) ==
            if NoneEmpty(entries) then Entries(AsRead(entries)) else Failed(AsRead(UpToEmpty(entries)), NotFound)
    decreases |entries|
  {
    hide Field, GetStr, EncodeList, DecodeList, NoneEmpty, UpToEmpty;
    if entries != [] {
      var e := entries[0];
      var name, list, rest := Field(TAG_BACKEND, e.backend), EncodeList(e.t, e.descs), EncodeEntries(entries[1..]);
      BeforeParts(r, name, list + rest);
      FieldRoundTrip(r, TAG_BACKEND, e.backend);
      var r1 := Advance(r, |name|);
      BeforeParts(r1, list, rest);
      ListRoundTrip(r1, e.t, e.descs);
      if e.descs != [] {
        EntriesRoundTrip(Advance(r1, |list|), entries[1..]);
        AsReadFirst(entries);
      } else {
        NothingRead(entries);
      }
    } else {
      assert AsRead(entries) == [] && NoneEmpty(entries) by { NoneEmptyNone(); }
    }
  }

  lemma NoneEmptyNone()
    ensures NoneEmpty([])
  {
  }

  // Reading on past a first entry that is not empty.
  lemma {:induction false} AsReadFirst(entries: seq<Entry>)
    requires entries != [] && entries[0].descs != []
    ensures AsRead(entries) == [AsReadOne(entries[0])] + AsRead(entries[1..])
    ensures AsRead(UpToEmpty(entries)) == [AsReadOne(entries[0])] + AsRead(UpToEmpty(entries[1..]))
    ensures NoneEmpty(entries) <==> NoneEmpty(entries[1..])
  {
    assert entries == [entries[0]] + entries[1..];
  }

  lemma NothingRead(entries: seq<Entry>)
    requires entries != [] && entries[0].descs == []
    ensures !NoneEmpty(entries) && AsRead(UpToEmpty(entries)) == []
  {
  }

  /**
   Exactly when a serialized section map can be read back: when no list in it is empty. The code makes
   empty lists: a registration that fails leaves one behind for a backend that had none.
   */
  lemma SectionsRoundTripIff(r: Reader, entries: seq<Entry>)
    requires Before(r, EncodeSections(entries)) && Encodable(entries)
    ensures NoneEmpty(entries) ==> DecodeSections(r) == Entries(AsRead(entries))
    ensures !NoneEmpty(entries) ==> DecodeSections(r) == Failed(AsRead(UpToEmpty(entries)), NotFound)
  {
    hide Field, GetBuf, EncodeEntries, DecodeEntries, Encode, Decode;
    var count := Field(TAG_SECTIONS, Encode(|entries|, SIZE_BYTES));
    BeforeParts(r, count, EncodeEntries(entries));
    FieldRoundTrip(r, TAG_SECTIONS, Encode(|entries|, SIZE_BYTES));
    SizeRoundTrip(|entries|);
    EntriesRoundTrip(Advance(r, |count|), entries);
  }

  // A section map with one list, left empty by a failed registration, cannot be loaded.
  lemma EmptyListExample(r: Reader, backend: Blob)
    requires backend != [] && Before(r, EncodeSections([Entry(DRAM, backend, [])]))
    ensures DecodeSections(r) == Failed([], NotFound)
  {
    hide DecodeSections, EncodeSections;
    SectionsRoundTripIff(r, [Entry(DRAM, backend, [])]);
    assert [Entry(DRAM, backend, [])][0].descs == [];
    assert AsRead([]) == [];
  }
}
