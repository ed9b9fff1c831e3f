/** Descriptors: a contiguous range of one device, alone or with backend metadata attached. */
module Descriptors {
  import opened MachineInt

  datatype Option<T> = None | Some(value: T)

  type byte = x: int | 0 <= x < 256
  type Blob = seq<byte>
  // A backend metadata pointer, known only by its identity.
  type Meta = int

  datatype BasicDesc = BasicDesc(addr: u64, len: u64, devId: u64)
  datatype MetaDesc = MetaDesc(basic: BasicDesc, meta: Meta)
  // A registered range: its backend metadata and the public form of that metadata.
  datatype SectionDesc = SectionDesc(basic: BasicDesc, meta: Meta, blob: Blob)

  datatype MemType = DRAM | VRAM | BLK | OBJ | FILE

  datatype Status =
    | Success | InProg | NotPosted | InvalidParam | BackendError | NotFound | Mismatch | NotAllowed
    | RepostActive | Unknown | NotSupported | RemoteDisconnect | Canceled
  {
    // Negative status codes.
    predicate IsError() {
      !Success? && !InProg?
    }
  }

  // The order of section lists: device, then address, then length.
  predicate Less(a: BasicDesc, b: BasicDesc) {
    if a.devId != b.devId then a.devId < b.devId
    else if a.addr != b.addr then a.addr < b.addr
    else a.len < b.len
  }

  // One byte of a transfer: where it is, and the metadata the backend reaches it with.
  datatype Byte = Byte(devId: u64, addr: u64, meta: Meta)

  function ByteAt(d: MetaDesc, k: nat): Byte {
    Byte(d.basic.devId, (d.basic.addr + k) % TWO_64, d.meta)
  }

  // The byte pairs one pair of transfer descriptors moves, in order.
  function PairBytes(d: MetaDesc, e: MetaDesc): seq<(Byte, Byte)> {
    seq(d.basic.len, k requires 0 <= k => (ByteAt(d, k), ByteAt(e, k)))
  }

  // The byte pairs two parallel descriptor lists move, in order: what a transfer means.
  function MovedBytes(local: seq<MetaDesc>, remote: seq<MetaDesc>): seq<(Byte, Byte)>
    requires |local| == |remote|
  {
    if local == [] then []
    else PairBytes(local[0], remote[0]) + MovedBytes(local[1..], remote[1..])
  }

  lemma {:induction false} MovedBytesAppend(a: seq<MetaDesc>, b: seq<MetaDesc>, c: seq<MetaDesc>, d: seq<MetaDesc>)
    requires |a| == |b| && |c| == |d|
    ensures MovedBytes(a + c, b + d) == MovedBytes(a, b) + MovedBytes(c, d)
  {
    if a == [] {
      assert a + c == c && b + d == d;
    } else {
      MovedBytesAppend(a[1..], b[1..], c, d);
      assert (a + c)[1..] == a[1..] + c && (b + d)[1..] == b[1..] + d;
    }
  }

  function TotalLen(descs: seq<MetaDesc>): nat {
    if descs == [] then 0 else descs[0].basic.len + TotalLen(descs[1..])
  }

  lemma {:induction false} TotalLenAppend(a: seq<MetaDesc>, b: seq<MetaDesc>)
    ensures TotalLen(a + b) == TotalLen(a) + TotalLen(b)
  {
    if a == [] {
      assert a + b == b;
    } else {
      TotalLenAppend(a[1..], b);
      assert (a + b)[1..] == a[1..] + b;
    }
  }
}
