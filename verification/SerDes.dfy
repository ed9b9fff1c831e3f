/**
 nixlSerDes: a byte string of tagged fields. A field is its tag, the length of its value in eight
 little-endian bytes, the value, and a separator. Reading advances an offset.
 */
module SerDes {
  import opened MachineInt
  import opened Descriptors

  const SIZE_BYTES: nat := 8
  const SEPARATOR: byte := 124 // '|'
  const HEADER: Blob := Bytes("nixlSerDes|")

  function Bytes(s: string): (bs: Blob)
    ensures |bs| == |s|
  {
    seq(|s|, i requires 0 <= i < |s| => (s[i] as int) % 256)
  }

  // ---- Fixed-width integers in memory order ----

  function Pow256(k: nat): nat {
    if k == 0 then 1 else 256 * Pow256(k - 1)
  }

  function Encode(x: nat, k: nat): (bs: Blob)
    ensures |bs| == k
  {
    if k == 0 then [] else [x % 256] + Encode(x / 256, k - 1)
  }

  function Decode(bs: Blob): nat {
    if bs == [] then 0 else bs[0] + 256 * Decode(bs[1..])
  }

  lemma {:induction false} DecodeEncode(x: nat, k: nat)
    requires x < Pow256(k)
    ensures Decode(Encode(x, k)) == x
  {
    if k > 0 {
      DecodeEncode(x / 256, k - 1);
      assert Encode(x, k)[1..] == Encode(x / 256, k - 1);
    }
  }

  lemma SizesFit()
    ensures Pow256(8) == TWO_64 && Pow256(4) == TWO_32
  {
    assert Pow256(1) == 256 && Pow256(2) == 0x1_0000 && Pow256(3) == 0x100_0000 && Pow256(4) == 0x1_0000_0000;
    assert Pow256(5) == 0x100_0000_0000 && Pow256(6) == 0x1_0000_0000_0000 && Pow256(7) == 0x100_0000_0000_0000;
  }

  lemma SizeRoundTrip(x: u64)
    ensures Decode(Encode(x, SIZE_BYTES)) == x
  {
    SizesFit();
    DecodeEncode(x, SIZE_BYTES);
  }

  // ---- Fields ----

  function Field(tag: Blob, value: Blob): (bs: Blob)
    ensures |bs| == |tag| + SIZE_BYTES + |value| + 1
  {
    tag + Encode(|value|, SIZE_BYTES) + value + [SEPARATOR]
  }

  // A byte string and the place to read on from.
  datatype Reader = Reader(bytes: Blob, offset: u64)

  // The length of the next field if it carries the tag.
  function HeaderLen(r: Reader, tag: Blob): (len: int)
    ensures len >= 0 ==> r.offset + |tag| + SIZE_BYTES <= |r.bytes|
  {
    if |r.bytes| < r.offset + |tag| + SIZE_BYTES then -1
    else if r.bytes[r.offset..r.offset + |tag|] != tag then -1
    else Decode(r.bytes[r.offset + |tag|..r.offset + |tag| + SIZE_BYTES])
  }

  // getStr: the value, empty on any mismatch. The length in the field is not trusted to fit: the sum
  // with the offset wraps as a size_t.
  function GetStr(r: Reader, tag: Blob): (res: (Blob, Reader))
    requires |r.bytes| < TWO_64
    ensures res.1.bytes == r.bytes
  {
    var len := HeaderLen(r, tag);
    if len < 0 then ([], r)
    else
      var start := r.offset + |tag| + SIZE_BYTES;
      var end := (start + len + 1) % TWO_64;
      if |r.bytes| < end then ([], r.(offset := start))
      else (r.bytes[start..Min(start + len, |r.bytes|)], r.(offset := end))
  }

  datatype BufResult = Buf(value: Blob, rest: Reader) | BadBuf

  // getBuf: a value of exactly the expected length.
  function GetBuf(r: Reader, tag: Blob, n: nat): (res: BufResult)
    requires |r.bytes| < TWO_64
    ensures res.Buf? ==> res.rest.bytes == r.bytes && |res.value| == n
  {
    var len := HeaderLen(r, tag);
    if len != n then BadBuf
    else
      var start := r.offset + |tag| + SIZE_BYTES;
      if |r.bytes| < start + n + 1 then BadBuf
      else Buf(r.bytes[start..start + n], r.(offset := (start + n + 1) % TWO_64))
  }

  // The reader stands before `next`.
  ghost predicate Before(r: Reader, next: Blob) {
    |r.bytes| < TWO_64 && r.offset <= |r.bytes| && next <= r.bytes[r.offset..]
  }

  function Advance(r: Reader, n: nat): Reader
    requires r.offset + n < TWO_64
  {
    r.(offset := r.offset + n)
  }

  lemma BeforeParts(r: Reader, a: Blob, b: Blob)
    requires Before(r, a + b)
    ensures Before(r, a) && r.offset + |a| <= |r.bytes| && Before(Advance(r, |a|), b)
  {
    var rest := r.bytes[r.offset..];
    assert a <= a + b;
    assert rest[|a|..] == r.bytes[r.offset + |a|..];
    assert (a + b)[|a|..] == b;
  }

  /** A field that was written is read back, by either reader, and the reader ends up just past it. */
  lemma FieldRoundTrip(r: Reader, tag: Blob, value: Blob)
    requires Before(r, Field(tag, value))
    ensures r.offset + |Field(tag, value)| <= |r.bytes|
    ensures GetStr(r, tag) == (value, Advance(r, |Field(tag, value)|))
    ensures GetBuf(r, tag, |value|) == Buf(value, Advance(r, |Field(tag, value)|))
  {
    hide Encode, Decode;
    var f := Field(tag, value);
    var rest := r.bytes[r.offset..];
    assert |value| < TWO_64;
    SizeRoundTrip(|value|);
    assert f[..|tag|] == tag;
    assert f[|tag|..|tag| + SIZE_BYTES] == Encode(|value|, SIZE_BYTES);
    var start := |tag| + SIZE_BYTES;
    assert f[start..start + |value|] == value;
    Slice(r.bytes, r.offset, f, 0, |tag|);
    Slice(r.bytes, r.offset, f, |tag|, start);
    Slice(r.bytes, r.offset, f, start, start + |value|);
  }

  // The bytes at the reader are the tag, eight bytes that hold the length of the value, the value, and one
  // more byte.
  ghost predicate Carries(r: Reader, tag: Blob, value: Blob) {
    var start := r.offset + |tag| + SIZE_BYTES;
    && start + |value| + 1 <= |r.bytes|
    && r.bytes[r.offset..r.offset + |tag|] == tag
    && Decode(r.bytes[r.offset + |tag|..start]) == |value|
    && r.bytes[start..start + |value|] == value
  }

  /** A buffer is read exactly when the bytes carry one of that tag and length, and reading ends just past it. */
  lemma GetBufIff(r: Reader, tag: Blob, n: nat, value: Blob, rest: Reader)
    requires |r.bytes| < TWO_64
    ensures GetBuf(r, tag, n) == Buf(value, rest) <==>
            |value| == n && Carries(r, tag, value) && rest == Advance(r, |tag| + SIZE_BYTES + |value| + 1)
  {
    hide Decode;
  }

  /**
   A string is read and the reader ends just past it exactly when the bytes carry one of that tag. Where
   the tag does not stand, nothing is read and the reader stays.
   */
  lemma GetStrIff(r: Reader, tag: Blob, value: Blob)
    requires |r.bytes| < TWO_64
    ensures Carries(r, tag, value) <==>
            && GetStr(r, tag).0 == value
            && GetStr(r, tag).1.offset == r.offset + |tag| + SIZE_BYTES + |value| + 1
    ensures !(tag <= r.bytes[Min(r.offset, |r.bytes|)..]) ==> GetStr(r, tag) == ([], r)
  {
    hide Decode;
    if r.offset + |tag| <= |r.bytes| && r.bytes[r.offset..r.offset + |tag|] == tag {
      assert tag <= r.bytes[r.offset..];
    }
  }

  lemma Slice(w: Blob, off: nat, f: Blob, i: nat, j: nat)
    requires off <= |w| && f <= w[off..] && i <= j <= |f|
    ensures off + j <= |w| && w[off + i..off + j] == f[i..j]
  {
    assert w[off + i..off + j] == w[off..][i..j];
  }

  /** The object: fields are appended to and consumed from one working string. */
  class Stream {
    var workingStr: Blob
    var offset: u64

    ghost predicate Valid()
      reads this
    {
      |workingStr| < TWO_64 && offset <= |workingStr|
    }

    constructor ()
      ensures Valid() && workingStr == HEADER && offset == |HEADER|
    {
      workingStr, offset := HEADER, |HEADER|;
    }

    function At(): Reader
      reads this
    {
      Reader(workingStr, offset)
    }

    method AddStr(tag: Blob, str: Blob)
      requires Valid() && |workingStr| + |Field(tag, str)| < TWO_64
      modifies this
      ensures Valid() && workingStr == old(workingStr) + Field(tag, str) && offset == old(offset)
    {
      workingStr := workingStr + tag;
      workingStr := workingStr + Encode(|str|, SIZE_BYTES);
      workingStr := workingStr + str;
      workingStr := workingStr + [SEPARATOR];
    }

    // importStr
    method Import(bytes: Blob) returns (ok: bool)
      requires |bytes| < TWO_64
      modifies this
      ensures ok <==> HEADER <= bytes
      ensures ok ==> Valid() && workingStr == bytes && offset == |HEADER|
      ensures !ok ==> workingStr == old(workingStr) && offset == old(offset)
    {
      ok := HEADER <= bytes;
      if ok { workingStr, offset := bytes, |HEADER|; }
    }
  }

  // ---- Whole streams ----

  function Fields(tags: seq<Blob>, values: seq<Blob>): Blob
    requires |tags| == |values|
  {
    if tags == [] then [] else Field(tags[0], values[0]) + Fields(tags[1..], values[1..])
  }

  // getStr, tag by tag.
  function ReadAll(r: Reader, tags: seq<Blob>): seq<Blob>
    requires |r.bytes| < TWO_64
    decreases |tags|
  {
    if tags == [] then [] else
      var (v, rest) := GetStr(r, tags[0]);
      [v] + ReadAll(rest, tags[1..])
  }

  // Adding a field to a stream adds it at the end.
  lemma {:induction false} FieldsSnoc(tags: seq<Blob>, values: seq<Blob>, tag: Blob, value: Blob)
    requires |tags| == |values|
    ensures Fields(tags + [tag], values + [value]) == Fields(tags, values) + Field(tag, value)
    decreases |tags|
  {
    hide Field;
    var ts, vs := tags + [tag], values + [value];
    if tags == [] {
      assert ts == [tag] && vs == [value];
      assert Fields(ts[1..], vs[1..]) == [];
    } else {
      assert ts[1..] == tags[1..] + [tag] && vs[1..] == values[1..] + [value];
      FieldsSnoc(tags[1..], values[1..], tag, value);
    }
  }

  /** A stream of any fields is read back field by field. */
  lemma {:induction false} StreamRoundTrip(r: Reader, tags: seq<Blob>, values: seq<Blob>)
    requires |tags| == |values| && Before(r, Fields(tags, values))
    ensures ReadAll(r, tags) == values
    decreases |tags|
  {
    hide Field, GetStr;
    if tags != [] {
      BeforeParts(r, Field(tags[0], values[0]), Fields(tags[1..], values[1..]));
      FieldRoundTrip(r, tags[0], values[0]);
      StreamRoundTrip(Advance(r, |Field(tags[0], values[0])|), tags[1..], values[1..]);
    }
  }
}
