/**
 The bitmap behind `mergeIndices`. A pair whose local and remote index are the successors of those of
 its predecessor has its bit set. A chunk of 8192 pairs is packed into 64-bit words when it is needed,
 and a run of such pairs is measured word by word.

 A word is its unsigned value; its bits are recovered with `Pack`, so shifting, or-ing and
 counting trailing ones are the arithmetic operations they are on unsigned integers.
 */
module Bits {
  // The word whose bit k is bs[k].
  function Pack(bs: seq<bool>): nat {
    if bs == [] then 0 else (if bs[0] then 1 else 0) + 2 * Pack(bs[1..])
  }

  function ShiftLeft(w: nat, n: nat): nat {
    if n == 0 then w else 2 * ShiftLeft(w, n - 1)
  }

  function ShiftRight(w: nat, n: nat): nat {
    if n == 0 then w else ShiftRight(w / 2, n - 1)
  }

  // std::countr_one
  function TrailingOnes(w: nat): nat {
    if w % 2 == 0 then 0 else 1 + TrailingOnes(w / 2)
  }

  // Bitwise or.
  function Or(a: nat, b: nat): nat
    decreases a
  {
    if a == 0 then b
    else (if a % 2 == 1 || b % 2 == 1 then 1 else 0) + 2 * Or(a / 2, b / 2)
  }

  // Length of the longest all-true prefix.
  function LeadingTrue(bs: seq<bool>): (n: nat)
    ensures n <= |bs|
    ensures forall k :: 0 <= k < n ==> bs[k]
    ensures n < |bs| ==> !bs[n]
  {
    if bs == [] || !bs[0] then 0 else 1 + LeadingTrue(bs[1..])
  }

  lemma {:induction false} ShiftLeftZero(n: nat)
    ensures ShiftLeft(0, n) == 0
  {
    if n > 0 { ShiftLeftZero(n - 1); }
  }

  lemma {:induction false} PackAppend(a: seq<bool>, b: seq<bool>)
    ensures Pack(a + b) == Pack(a) + ShiftLeft(Pack(b), |a|)
  {
    if a == [] {
      assert a + b == b;
    } else {
      PackAppend(a[1..], b);
      assert (a + b)[1..] == a[1..] + b;
    }
  }

  lemma {:induction false} PackBound(bs: seq<bool>)
    ensures Pack(bs) < ShiftLeft(1, |bs|)
  {
    if bs != [] { PackBound(bs[1..]); }
  }

  lemma PackUnfold(bs: seq<bool>)
    requires bs != []
    ensures Pack(bs) == (if bs[0] then 1 else 0) + 2 * Pack(bs[1..])
  {
  }

  // The lowest bit of a word and the rest of it.
  lemma PackStep(bs: seq<bool>)
    requires bs != []
    ensures Pack(bs) % 2 == (if bs[0] then 1 else 0) && Pack(bs) / 2 == Pack(bs[1..])
  {
    hide Pack;
    PackUnfold(bs);
    HalfOf(Pack(bs[1..]), if bs[0] then 1 else 0);
  }

  lemma HalfOf(t: nat, b: nat)
    requires b <= 1
    ensures (b + 2 * t) % 2 == b && (b + 2 * t) / 2 == t
  {
  }

  lemma {:induction false} PackShift(bs: seq<bool>, n: nat)
    requires n <= |bs|
    ensures ShiftRight(Pack(bs), n) == Pack(bs[n..])
  {
    if n == 0 {
      assert bs[0..] == bs;
    } else {
      PackStep(bs);
      PackShift(bs[1..], n - 1);
      assert bs[1..][n - 1..] == bs[n..];
    }
  }

  /** Counting trailing ones of a word counts its leading set bits. */
  lemma {:induction false} PackTrailingOnes(bs: seq<bool>)
    ensures TrailingOnes(Pack(bs)) == LeadingTrue(bs)
  {
    if bs != [] {
      PackStep(bs);
      if bs[0] {
        PackTrailingOnes(bs[1..]);
        assert TrailingOnes(Pack(bs)) == 1 + TrailingOnes(Pack(bs[1..]));
      }
    }
  }

  /** Or-ing in bits above every set bit adds them. */
  lemma {:induction false} OrDisjoint(a: nat, b: nat, n: nat)
    requires a < ShiftLeft(1, n)
    ensures Or(a, ShiftLeft(b, n)) == a + ShiftLeft(b, n)
  {
    if a != 0 {
      HalfOf(ShiftLeft(b, n - 1), 0);
      OrDisjoint(a / 2, b, n - 1);
    }
  }
}

module ContinuationBitmap {
  import opened MachineInt
  import opened Bits

  const CHUNK_PAIRS: nat := 8192
  const WORD_BITS: nat := 64
  const HALF_BITS: nat := 32
  const WORDS: nat := 128

  predicate IsContinuation(local: seq<u32>, remote: seq<u32>, pair: nat)
    requires 1 <= pair < |local| == |remote|
  {
    Sub32(local[pair], local[pair - 1]) == 1 && Sub32(remote[pair], remote[pair - 1]) == 1
  }

  // The naive count: walk the pairs one by one.
  function RunLength(local: seq<u32>, remote: seq<u32>, pair: nat, limit: nat): nat
    requires |local| == |remote| && 1 <= pair && pair + limit <= |local|
    decreases limit
  {
    if limit == 0 || !IsContinuation(local, remote, pair) then 0
    else 1 + RunLength(local, remote, pair + 1, limit - 1)
  }

  // The pairs it counts continue, and the next one does not, unless the limit is reached.
  lemma {:induction false} RunLengthStops(local: seq<u32>, remote: seq<u32>, pair: nat, limit: nat)
    requires |local| == |remote| && 1 <= pair && pair + limit <= |local|
    ensures RunLength(local, remote, pair, limit) <= limit
    ensures forall p :: pair <= p < pair + RunLength(local, remote, pair, limit) ==> IsContinuation(local, remote, p)
    ensures RunLength(local, remote, pair, limit) < limit ==>
              !IsContinuation(local, remote, pair + RunLength(local, remote, pair, limit))
    decreases limit
  {
    if limit > 0 && IsContinuation(local, remote, pair) { RunLengthStops(local, remote, pair + 1, limit - 1); }
  }

  /** RunLength is the one count whose pairs all continue and which stops at a gap or at the limit. */
  lemma {:induction false} RunLengthUnique(local: seq<u32>, remote: seq<u32>, pair: nat, limit: nat, n: nat)
    requires |local| == |remote| && 1 <= pair && pair + limit <= |local|
    requires n <= limit
    requires forall p :: pair <= p < pair + n ==> IsContinuation(local, remote, p)
    requires n < limit ==> !IsContinuation(local, remote, pair + n)
    ensures RunLength(local, remote, pair, limit) == n
    decreases limit
  {
    if n > 0 {
      RunLengthUnique(local, remote, pair + 1, limit - 1, n - 1);
    }
  }

  lemma {:induction false} RunLengthContinues(local: seq<u32>, remote: seq<u32>, pair: nat, limit: nat, p: nat)
    requires |local| == |remote| && 1 <= pair && pair + limit <= |local|
    requires pair <= p < pair + RunLength(local, remote, pair, limit)
    ensures RunLength(local, remote, pair, limit) <= limit
    ensures p < pair + limit && IsContinuation(local, remote, p)
    decreases limit
  {
    RunLengthBound(local, remote, pair, limit);
    if p > pair {
      RunLengthContinues(local, remote, pair + 1, limit - 1, p);
    }
  }

  lemma {:induction false} RunLengthBound(local: seq<u32>, remote: seq<u32>, pair: nat, limit: nat)
    requires |local| == |remote| && 1 <= pair && pair + limit <= |local|
    ensures RunLength(local, remote, pair, limit) <= limit
    decreases limit
  {
    if limit != 0 && IsContinuation(local, remote, pair) {
      RunLengthBound(local, remote, pair + 1, limit - 1);
    }
  }

  // The bits of `n` pairs from `first`; pairs past the end have no bit.
  ghost function PairBits(local: seq<u32>, remote: seq<u32>, first: nat, n: nat): (bs: seq<bool>)
    requires |local| == |remote| && 1 <= first
    ensures |bs| == n
    ensures forall k :: 0 <= k < n ==> bs[k] == (first + k < |local| && IsContinuation(local, remote, first + k))
  {
    seq(n, k requires 0 <= k < n => first + k < |local| && IsContinuation(local, remote, first + k))
  }

  lemma PairBitsAppend(local: seq<u32>, remote: seq<u32>, first: nat, m: nat, n: nat)
    requires |local| == |remote| && 1 <= first
    ensures PairBits(local, remote, first, m + n)
         == PairBits(local, remote, first, m) + PairBits(local, remote, first + m, n)
  {
  }

  // Packing one more pair or-s in, or adds, its lane's bit.
  lemma PackNext(local: seq<u32>, remote: seq<u32>, first: nat, k: nat)
    requires |local| == |remote| && 1 <= first && first + k < |local|
    ensures Pack(PairBits(local, remote, first, k + 1)) == Pack(PairBits(local, remote, first, k))
              + (if IsContinuation(local, remote, first + k) then ShiftLeft(1, k) else 0)
    ensures Pack(PairBits(local, remote, first, k)) < ShiftLeft(1, k)
  {
    PairBitsAppend(local, remote, first, k, 1);
    PackAppend(PairBits(local, remote, first, k), PairBits(local, remote, first + k, 1));
    PackBound(PairBits(local, remote, first, k));
    var b := PairBits(local, remote, first + k, 1);
    assert Pack(b) == if b[0] then 1 else 0;
    ShiftLeftZero(k);
  }

  // Pairs past the end leave a word unchanged.
  lemma {:induction false} PackPastEnd(local: seq<u32>, remote: seq<u32>, first: nat, k: nat, n: nat)
    requires |local| == |remote| && 1 <= first && first + k == |local| && k <= n
    ensures Pack(PairBits(local, remote, first, n)) == Pack(PairBits(local, remote, first, k))
    decreases n
  {
    if n > k {
      PackPastEnd(local, remote, first, k, n - 1);
      PairBitsAppend(local, remote, first, n - 1, 1);
      PackAppend(PairBits(local, remote, first, n - 1), PairBits(local, remote, first + n - 1, 1));
      assert Pack(PairBits(local, remote, first + n - 1, 1)) == 0;
      ShiftLeftZero(n - 1);
    }
  }

  /** Packs the bits of 32 pairs, the first pair in the lowest bit. */
  method ContinuationBits(local: seq<u32>, remote: seq<u32>, first: nat) returns (bits: nat)
    requires |local| == |remote| && 1 <= first && first + HALF_BITS <= |local|
    ensures bits == Pack(PairBits(local, remote, first, HALF_BITS))
  {
    bits := 0;
    var lane := 0;
    while lane < HALF_BITS
      invariant lane <= HALF_BITS
      invariant bits == Pack(PairBits(local, remote, first, lane))
    {
      PackNext(local, remote, first, lane);
      bits := bits + if IsContinuation(local, remote, first + lane) then ShiftLeft(1, lane) else 0;
      lane := lane + 1;
    }
  }

  // `n` pairs from `pair` continue, and unless there may be more the next one does not.
  ghost predicate Counted(local: seq<u32>, remote: seq<u32>, pair: nat, n: nat, more: bool)
    requires |local| == |remote| && 1 <= pair
  {
    && (n > 0 ==> pair + n <= |local|)
    && (forall p :: pair <= p < pair + n ==> IsContinuation(local, remote, p))
    && (!more && pair + n < |local| ==> !IsContinuation(local, remote, pair + n))
  }

  lemma CountedAppend(local: seq<u32>, remote: seq<u32>, pair: nat, m: nat, n: nat, more: bool)
    requires |local| == |remote| && 1 <= pair
    requires Counted(local, remote, pair, m, true) && Counted(local, remote, pair + m, n, more)
    ensures Counted(local, remote, pair, m + n, more)
  {
  }

  lemma CountedIsRunLength(local: seq<u32>, remote: seq<u32>, pair: nat, limit: nat, n: nat, more: bool)
    requires |local| == |remote| && 1 <= pair && pair + limit <= |local|
    requires Counted(local, remote, pair, n, more) && (more ==> limit <= n)
    ensures RunLength(local, remote, pair, limit) == Min(n, limit)
  {
    RunLengthUnique(local, remote, pair, limit, Min(n, limit));
  }

  // The set bits of a word from bit `bit` on are the pairs that continue from there.
  lemma WordRun(local: seq<u32>, remote: seq<u32>, first: nat, bit: nat)
    requires |local| == |remote| && 1 <= first && bit < WORD_BITS
    ensures var n := TrailingOnes(ShiftRight(Pack(PairBits(local, remote, first, WORD_BITS)), bit));
            && n <= WORD_BITS - bit
            && Counted(local, remote, first + bit, n, n == WORD_BITS - bit)
  {
    var bs := PairBits(local, remote, first, WORD_BITS);
    PackShift(bs, bit);
    PackTrailingOnes(bs[bit..]);
    var n := LeadingTrue(bs[bit..]);
    forall k | bit <= k < bit + n ensures bs[k] {
      assert bs[bit..][k - bit];
    }
    if n > 0 {
      assert bs[bit + n - 1];
    }
    forall p | first + bit <= p < first + bit + n ensures p < |local| && IsContinuation(local, remote, p) {
      assert bs[p - first];
    }
    assert n < WORD_BITS - bit ==> !bs[bit..][n] && !bs[bit + n];
  }

  class Bitmap {
    const local: seq<u32>
    const remote: seq<u32>
    const words: array<nat>
    var chunkFirst: nat
    var chunkEnd: nat

    // Every word of the current chunk holds the bits of its 64 pairs. Before the first fill the
    // chunk is empty and the words are arbitrary.
    ghost predicate Valid()
      reads this, words
    {
      && |local| == |remote|
      && words.Length == WORDS
      && chunkFirst <= chunkEnd <= |local|
      && (chunkFirst < chunkEnd ==>
            && 1 <= chunkFirst
            && chunkEnd == Min(chunkFirst + CHUNK_PAIRS, |local|)
            && forall i :: 0 <= i < WORDS && chunkFirst + WORD_BITS * i < chunkEnd ==>
                 words[i] == Pack(PairBits(local, remote, chunkFirst + WORD_BITS * i, WORD_BITS)))
    }

    constructor (local: seq<u32>, remote: seq<u32>)
      requires |local| == |remote|
      ensures Valid() && fresh(words)
      ensures this.local == local && this.remote == remote
      ensures chunkFirst == 0 && chunkEnd == 0
    {
      this.local, this.remote := local, remote;
      words := new nat[WORDS];
      chunkFirst, chunkEnd := 0, 0;
    }

    // One word of the chunk, from a whole word of pairs or from the tail of the list.
    method FillWord(first: nat) returns (w: nat)
      requires |local| == |remote| && 1 <= first < |local|
      ensures w == Pack(PairBits(local, remote, first, WORD_BITS))
    {
      if first + WORD_BITS <= |local| {
        var high := ContinuationBits(local, remote, first + HALF_BITS);
        var low := ContinuationBits(local, remote, first);
        w := Or(low, ShiftLeft(high, HALF_BITS));
        ghost var lo := PairBits(local, remote, first, HALF_BITS);
        ghost var hi := PairBits(local, remote, first + HALF_BITS, HALF_BITS);
        PackBound(lo);
        OrDisjoint(low, high, HALF_BITS);
        PackAppend(lo, hi);
        PairBitsAppend(local, remote, first, HALF_BITS, HALF_BITS);
      } else {
        w := 0;
        var pair := first;
        while pair < |local|
          invariant first <= pair <= |local|
          invariant w == Pack(PairBits(local, remote, first, pair - first))
        {
          PackNext(local, remote, first, pair - first);
          if IsContinuation(local, remote, pair) {
            OrDisjoint(w, 1, pair - first);
            w := Or(w, ShiftLeft(1, pair - first));
          }
          pair := pair + 1;
        }
        PackPastEnd(local, remote, first, pair - first, WORD_BITS);
      }
    }

    /** Starts a new chunk at `first`. */
    method FillChunk(first: nat)
      requires Valid() && 1 <= first < |local|
      modifies this, words
      ensures Valid()
      ensures chunkFirst == first && chunkEnd == Min(first + CHUNK_PAIRS, |local|)
    {
      chunkFirst := first;
      chunkEnd := Min(first + CHUNK_PAIRS, |local|);
      var i, from := 0, first;
      while from < chunkEnd
        invariant from == first + WORD_BITS * i
        invariant chunkFirst == first && chunkEnd == Min(first + CHUNK_PAIRS, |local|)
        invariant forall j :: 0 <= j < i && j < WORDS ==>
          words[j] == Pack(PairBits(local, remote, first + WORD_BITS * j, WORD_BITS))
        decreases chunkEnd - from
      {
        words[i] := FillWord(from);
        i, from := i + 1, from + WORD_BITS;
      }
    }

    // Counting trailing ones from the bit of the pair `bit` places into the chunk counts the pairs
    // that continue from there, up to the end of the word.
    lemma Scan(bit: nat)
      requires Valid() && chunkFirst + bit < chunkEnd
      ensures bit / WORD_BITS < WORDS && 1 <= chunkFirst
      ensures var n := TrailingOnes(ShiftRight(words[bit / WORD_BITS], bit % WORD_BITS));
              Counted(local, remote, chunkFirst + bit, n, n > 0 && (bit + n) % WORD_BITS == 0)
    {
      var i, k := bit / WORD_BITS, bit % WORD_BITS;
      var from := chunkFirst + WORD_BITS * i;
      assert bit == WORD_BITS * i + k;
      assert words[i] == Pack(PairBits(local, remote, from, WORD_BITS));
      WordRun(local, remote, from, k);
      var n := TrailingOnes(ShiftRight(words[i], k));
      if n == WORD_BITS - k {
        assert bit + n == WORD_BITS * (i + 1);
      }
    }

    // What has been counted up to the end of a word and the leading ones of the next add up.
    lemma ScanNextWord(pair: nat, n: nat)
      requires Valid() && chunkFirst <= pair && pair + n < chunkEnd && 1 <= pair
      requires Counted(local, remote, pair, n, true)
      requires (pair - chunkFirst + n) % WORD_BITS == 0
      ensures (pair - chunkFirst + n) / WORD_BITS < WORDS
      ensures var ones := TrailingOnes(words[(pair - chunkFirst + n) / WORD_BITS]);
              Counted(local, remote, pair, n + ones, ones > 0 && (pair - chunkFirst + (n + ones)) % WORD_BITS == 0)
    {
      var bit := pair - chunkFirst + n;
      Scan(bit);
      var ones := TrailingOnes(words[bit / WORD_BITS]);
      assert ShiftRight(words[bit / WORD_BITS], 0) == words[bit / WORD_BITS];
      assert chunkFirst + bit == pair + n && bit + ones == pair - chunkFirst + (n + ones);
      CountedAppend(local, remote, pair, n, ones, ones > 0 && (bit + ones) % WORD_BITS == 0);
    }

    /** How many set bits follow one another from the bit of `pair` on; the chunk must reach to the limit. */
    method CountInChunk(pair: nat, limit: nat) returns (r: nat)
      requires Valid() && chunkFirst <= pair < chunkEnd && pair + limit <= chunkEnd
      ensures 1 <= pair
      ensures r == RunLength(local, remote, pair, limit)
    {
      hide Pack, PairBits, RunLength, TrailingOnes, ShiftRight;
      var firstBit := pair - chunkFirst;
      Scan(firstBit);
      var ones := TrailingOnes(ShiftRight(words[firstBit / WORD_BITS], firstBit % WORD_BITS));
      var count := ones;
      while ones > 0 && count < limit && (firstBit + count) % WORD_BITS == 0
        invariant Counted(local, remote, pair, count, ones > 0 && (firstBit + count) % WORD_BITS == 0)
        decreases limit - count, ones
      {
        ScanNextWord(pair, count);
        ones := TrailingOnes(words[(firstBit + count) / WORD_BITS]);
        count := count + ones;
      }
      r := Min(count, limit);
      CountedIsRunLength(local, remote, pair, limit, count, ones > 0 && (firstBit + count) % WORD_BITS == 0);
    }

    /**
     The number of pairs from `pair` that continue, at most `limit`, whatever the alignment of
     `pair` with the words and the chunks. Positions may only grow from call to call: the chunk
     left behind never starts after the next admissible position.
     */
    method CountContinuations(pair: nat, limit: nat) returns (count: nat)
      requires Valid() && chunkFirst <= pair
      requires 1 <= pair && pair + limit <= |local|
      modifies this, words
      ensures Valid()
      ensures count == RunLength(local, remote, pair, limit)
      ensures chunkFirst <= pair + count
    {
      count := 0;
      while count < limit
        invariant Valid() && count <= limit
        invariant chunkFirst <= pair + count
        invariant forall p :: pair <= p < pair + count ==> IsContinuation(local, remote, p)
      {
        var next := pair + count;
        if next >= chunkEnd {
          FillChunk(next);
        }
        var inChunk := Min(limit - count, chunkEnd - next);
        var continued := CountInChunk(next, inChunk);
        forall p | next <= p < next + continued ensures p < |local| && IsContinuation(local, remote, p) {
          RunLengthContinues(local, remote, next, inChunk, p);
        }
        RunLengthBound(local, remote, next, inChunk);
        count := count + continued;
        if continued < inChunk {
          StopsAt(local, remote, next, inChunk);
          break;
        }
      }
      RunLengthUnique(local, remote, pair, limit, count);
    }
  }

  lemma {:induction false} StopsAt(local: seq<u32>, remote: seq<u32>, pair: nat, limit: nat)
    requires |local| == |remote| && 1 <= pair && pair + limit <= |local|
    requires RunLength(local, remote, pair, limit) < limit
    ensures !IsContinuation(local, remote, pair + RunLength(local, remote, pair, limit))
    decreases limit
  {
    if IsContinuation(local, remote, pair) {
      StopsAt(local, remote, pair + 1, limit - 1);
    }
  }
}
