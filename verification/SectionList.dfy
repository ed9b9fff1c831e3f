/**
 nixlSecDescList: a section list kept sorted by (device, address, length) under single insertion,
 batch merge and removal by index. The lists of file-like memory types store a zero length as the
 unbounded length.
 */
module SectionList {
  import opened MachineInt
  import opened Descriptors
  import opened Coverage

  predicate UsesUnboundedLen(t: MemType) {
    t == BLK || t == OBJ || t == FILE
  }

  function NormalizeQuery(t: MemType, q: BasicDesc): BasicDesc {
    if UsesUnboundedLen(t) && q.len == 0 then q.(len := MAX_64) else q
  }

  function Normalize(t: MemType, d: SectionDesc): SectionDesc {
    d.(basic := NormalizeQuery(t, d.basic))
  }

  function NormalizeAll(t: MemType, batch: seq<SectionDesc>): (r: seq<SectionDesc>)
    ensures |r| == |batch| && forall i :: 0 <= i < |batch| ==> r[i] == Normalize(t, batch[i])
  {
    seq(|batch|, i requires 0 <= i < |batch| => Normalize(t, batch[i]))
  }

  /** Only a zero length of block, object or file memory is changed, to the largest length there is. */
  lemma NormalizeMeans(t: MemType, q: BasicDesc)
    ensures NormalizeQuery(t, q).addr == q.addr && NormalizeQuery(t, q).devId == q.devId
    ensures t == DRAM || t == VRAM || q.len > 0 ==> NormalizeQuery(t, q) == q
    ensures t != DRAM && t != VRAM && q.len == 0 ==> NormalizeQuery(t, q).len == MAX_64
    ensures NormalizeQuery(t, NormalizeQuery(t, q)) == NormalizeQuery(t, q)
  {
    match t case DRAM => case VRAM => case BLK => case OBJ => case FILE =>
  }

  ghost predicate NoZeroLen(t: MemType, s: seq<SectionDesc>) {
    UsesUnboundedLen(t) ==> forall i :: 0 <= i < |s| ==> s[i].basic.len != 0
  }

  // ---- Insertion and merge, as functions of the list ----

  // std::upper_bound: the first element greater than x.
  function UpperBound(s: seq<SectionDesc>, x: BasicDesc): (r: nat)
    ensures r <= |s|
    ensures forall i :: 0 <= i < r ==> !Less(x, s[i].basic)
    ensures r < |s| ==> Less(x, s[r].basic)
  {
    if s == [] || Less(x, s[0].basic) then 0 else 1 + UpperBound(s[1..], x)
  }

  function Insert(s: seq<SectionDesc>, d: SectionDesc): seq<SectionDesc> {
    var u := UpperBound(s, d.basic);
    s[..u] + [d] + s[u..]
  }

  lemma InsertAdds(s: seq<SectionDesc>, d: SectionDesc)
    ensures multiset(Insert(s, d)) == multiset(s) + multiset{d}
  {
    var u := UpperBound(s, d.basic);
    assert s == s[..u] + s[u..];
  }

  /** Inserting at the upper bound keeps the list sorted. */
  lemma InsertSorted(s: seq<SectionDesc>, d: SectionDesc)
    requires Sorted(s)
    ensures Sorted(Insert(s, d))
  {
    hide Less, UpperBound;
    var u := UpperBound(s, d.basic);
    var r := Insert(s, d);
    forall i, j | 0 <= i < j < |r| ensures !Less(r[j].basic, r[i].basic) {
      if i == u {
        assert r[j] == s[j - 1];
        if j - 1 > u { assert !Less(s[j - 1].basic, s[u].basic); }
        NotLessTransitive(d.basic, s[u].basic, s[j - 1].basic);
      } else if j == u {
        assert r[i] == s[i];
      } else {
        assert r[i] == s[if i < u then i else i - 1] && r[j] == s[if j < u then j else j - 1];
      }
    }
  }

  lemma NotLessTransitive(x: BasicDesc, y: BasicDesc, z: BasicDesc)
    requires Less(x, y) && (z == y || !Less(z, y))
    ensures !Less(z, x)
  {
  }

  // Merging from the back, on a tie the element of b: equal keys of a come before those of b.
  function Merge(a: seq<SectionDesc>, b: seq<SectionDesc>): seq<SectionDesc>
    decreases |a| + |b|
  {
    if a == [] then b
    else if b == [] then a
    else
      var x, y := a[|a| - 1], b[|b| - 1];
      if Less(y.basic, x.basic) then Merge(a[..|a| - 1], b) + [x] else Merge(a, b[..|b| - 1]) + [y]
  }

  lemma {:induction false} MergeSize(a: seq<SectionDesc>, b: seq<SectionDesc>)
    ensures |Merge(a, b)| == |a| + |b|
    ensures multiset(Merge(a, b)) == multiset(a) + multiset(b)
    decreases |a| + |b|
  {
    if a != [] && b != [] {
      var x, y := a[|a| - 1], b[|b| - 1];
      assert a == a[..|a| - 1] + [x] && b == b[..|b| - 1] + [y];
      if Less(y.basic, x.basic) { MergeSize(a[..|a| - 1], b); } else { MergeSize(a, b[..|b| - 1]); }
    }
  }

  ghost predicate AtMost(s: seq<SectionDesc>, x: BasicDesc) {
    forall i :: 0 <= i < |s| ==> !Less(x, s[i].basic)
  }

  lemma AtMostOf(s: seq<SectionDesc>, t: seq<SectionDesc>, u: seq<SectionDesc>, x: BasicDesc)
    requires multiset(u) == multiset(s) + multiset(t) && AtMost(s, x) && AtMost(t, x)
    ensures AtMost(u, x)
  {
    forall i | 0 <= i < |u| ensures !Less(x, u[i].basic) {
      assert u[i] in multiset(u);
      assert u[i] in multiset(s) || u[i] in multiset(t);
      assert u[i] in s || u[i] in t;
    }
  }

  lemma SortedSnoc(s: seq<SectionDesc>, x: SectionDesc)
    requires Sorted(s) && AtMost(s, x.basic)
    ensures Sorted(s + [x])
  {
  }

  /** Merging two sorted lists gives a sorted list. */
  lemma {:induction false} MergeSorted(a: seq<SectionDesc>, b: seq<SectionDesc>)
    requires Sorted(a) && Sorted(b)
    ensures Sorted(Merge(a, b))
    decreases |a| + |b|
  {
    if a != [] && b != [] {
      var x, y := a[|a| - 1], b[|b| - 1];
      if Less(y.basic, x.basic) {
        var rest := a[..|a| - 1];
        MergeSorted(rest, b);
        MergeSize(rest, b);
        assert AtMost(rest, x.basic);
        assert AtMost(b, x.basic);
        AtMostOf(rest, b, Merge(rest, b), x.basic);
        SortedSnoc(Merge(rest, b), x);
      } else {
        var rest := b[..|b| - 1];
        MergeSorted(a, rest);
        MergeSize(a, rest);
        assert AtMost(a, y.basic);
        assert AtMost(rest, y.basic);
        AtMostOf(a, rest, Merge(a, rest), y.basic);
        SortedSnoc(Merge(a, rest), y);
      }
    }
  }

  /**
   The reverse merge in place: `vec` holds the old elements and then room for the batch. Moving an
   element out leaves `hole` behind, whatever it is, so nothing is read after it was moved or
   overwritten before it was read.
   */
  method MergeInPlace(vec: array<SectionDesc>, oldSize: nat, batch: seq<SectionDesc>, hole: SectionDesc)
    requires vec.Length == oldSize + |batch|
    modifies vec
    ensures vec[..] == Merge(old(vec[..oldSize]), batch)
  {
    hide Merge;
    ghost var before := vec[..oldSize];
    var a, b := MergeBack(vec, oldSize, batch, hole);
    MergeNone(before[..a], batch[..b]);
    ghost var tail := vec[a + b..];
    while b > 0
      invariant b <= |batch| && (b > 0 ==> a == 0) && a <= oldSize
      invariant vec[..a] == before[..a] && vec[a + b..] == tail
      invariant Merge(before, batch) == before[..a] + batch[..b] + tail
    {
      vec[a + b - 1] := batch[b - 1];
      b := b - 1;
      assert batch[..b + 1] == batch[..b] + [batch[b]];
      tail := [vec[a + b]] + tail;
    }
    assert vec[..] == vec[..a] + vec[a..];
  }

  // The first loop: until one side is used up.
  method MergeBack(vec: array<SectionDesc>, oldSize: nat, batch: seq<SectionDesc>, hole: SectionDesc)
    returns (a: nat, b: nat)
    requires vec.Length == oldSize + |batch|
    modifies vec
    ensures a <= oldSize && b <= |batch| && (a == 0 || b == 0)
    ensures vec[..a] == old(vec[..a])
    ensures Merge(old(vec[..oldSize]), batch) == Merge(old(vec[..a]), batch[..b]) + vec[a + b..]
  {
    hide Merge, Less;
    ghost var before := vec[..oldSize];
    a, b := oldSize, |batch|;
    ghost var tail: seq<SectionDesc> := [];
    assert before[..a] == before && batch[..b] == batch;
    while a > 0 && b > 0
      invariant a <= oldSize && b <= |batch|
      invariant vec[..a] == before[..a] && vec[a + b..] == tail
      invariant Merge(before, batch) == Merge(before[..a], batch[..b]) + tail
    {
      MergeLast(before, batch, a, b, tail);
      assert vec[a - 1] == before[a - 1];
      var dst := a + b - 1;
      if Less(batch[b - 1].basic, vec[a - 1].basic) {
        vec[dst] := vec[a - 1];
        vec[a - 1] := hole;
        a := a - 1;
      } else {
        vec[dst] := batch[b - 1];
        b := b - 1;
      }
      tail := [vec[dst]] + tail;
    }
    assert before[..a] == old(vec[..a]);
  }

  lemma MergeLast(before: seq<SectionDesc>, batch: seq<SectionDesc>, a: nat, b: nat, tail: seq<SectionDesc>)
    requires 0 < a <= |before| && 0 < b <= |batch|
    ensures Merge(before[..a], batch[..b]) + tail ==
            if Less(batch[b - 1].basic, before[a - 1].basic)
            then Merge(before[..a - 1], batch[..b]) + ([before[a - 1]] + tail)
            else Merge(before[..a], batch[..b - 1]) + ([batch[b - 1]] + tail)
  {
    assert before[..a][..a - 1] == before[..a - 1] && batch[..b][..b - 1] == batch[..b - 1];
    var rest := if Less(batch[b - 1].basic, before[a - 1].basic) then Merge(before[..a - 1], batch[..b])
                else Merge(before[..a], batch[..b - 1]);
    var last := if Less(batch[b - 1].basic, before[a - 1].basic) then before[a - 1] else batch[b - 1];
    assert Merge(before[..a], batch[..b]) == rest + [last];
    assert rest + [last] + tail == rest + ([last] + tail);
  }

  lemma MergeNone(a: seq<SectionDesc>, b: seq<SectionDesc>)
    requires a == [] || b == []
    ensures Merge(a, b) == a + b
  {
    assert [] + b == b && a + [] == a;
  }

  // ---- Batches ----

  // addSortedDescs as a function of the list: the two fast paths and the merge.
  function AddSorted(vec: seq<SectionDesc>, batch: seq<SectionDesc>): seq<SectionDesc>
    requires batch != []
  {
    if vec == [] then batch
    else if !Less(batch[0].basic, vec[|vec| - 1].basic) then vec + batch
    else if !Less(vec[0].basic, batch[|batch| - 1].basic) then batch + vec
    else Merge(vec, batch)
  }

  lemma SortedConcat(a: seq<SectionDesc>, b: seq<SectionDesc>)
    requires Sorted(a) && Sorted(b) && (a != [] && b != [] ==> !Less(b[0].basic, a[|a| - 1].basic))
    ensures Sorted(a + b)
  {
    hide Less;
    var r := a + b;
    forall i, j | 0 <= i < j < |r| ensures !Less(r[j].basic, r[i].basic) {
      if i < |a| <= j {
        ChainNotLess(a[i].basic, a[|a| - 1].basic, b[0].basic, b[j - |a|].basic,
                     i == |a| - 1 || !Less(a[|a| - 1].basic, a[i].basic),
                     j == |a| || !Less(b[j - |a|].basic, b[0].basic));
      }
    }
  }

  lemma ChainNotLess(w: BasicDesc, x: BasicDesc, y: BasicDesc, z: BasicDesc, first: bool, last: bool)
    requires !Less(y, x) && first && last && (first ==> w == x || !Less(x, w)) && (last ==> z == y || !Less(z, y))
    ensures !Less(z, w)
  {
  }

  /** Every path of the batch insertion keeps the list sorted and adds exactly the batch. */
  lemma AddSortedKeeps(vec: seq<SectionDesc>, batch: seq<SectionDesc>)
    requires batch != [] && Sorted(vec) && Sorted(batch)
    ensures Sorted(AddSorted(vec, batch))
    ensures multiset(AddSorted(vec, batch)) == multiset(vec) + multiset(batch)
  {
    hide Merge, Less;
    if vec == [] {
    } else if !Less(batch[0].basic, vec[|vec| - 1].basic) {
      SortedConcat(vec, batch);
    } else if !Less(vec[0].basic, batch[|batch| - 1].basic) {
      SortedConcat(batch, vec);
    } else {
      MergeSorted(vec, batch);
      MergeSize(vec, batch);
    }
  }

  // std::sort: some sorted arrangement of the batch.
  method Sort(batch: seq<SectionDesc>) returns (r: seq<SectionDesc>)
    ensures Sorted(r) && multiset(r) == multiset(batch)
  {
    r := [];
    for i := 0 to |batch|
      invariant Sorted(r) && multiset(r) == multiset(batch[..i])
    {
      InsertSorted(r, batch[i]);
      InsertAdds(r, batch[i]);
      assert batch[..i + 1] == batch[..i] + [batch[i]];
      r := Insert(r, batch[i]);
    }
    assert batch[..|batch|] == batch;
  }

  // ---- Removal by index ----

  // How many of the sorted indices are used up after reading `read` elements.
  function Cursor(indices: seq<nat>, read: nat): (ri: nat)
    ensures ri <= |indices|
  {
    if read == 0 then 0
    else
      var ri := Cursor(indices, read - 1);
      if ri < |indices| && read - 1 == indices[ri] then ri + 1 else ri
  }

  // Whether the compaction drops the element at `read`.
  predicate Drops(indices: seq<nat>, read: nat) {
    var ri := Cursor(indices, read);
    ri < |indices| && read == indices[ri]
  }

  // The first n elements without the dropped ones.
  function Compact<T>(s: seq<T>, indices: seq<nat>, n: nat): (r: seq<T>)
    requires n <= |s|
    ensures |r| <= n
  {
    if n == 0 then []
    else if Drops(indices, n - 1) then Compact(s, indices, n - 1)
    else Compact(s, indices, n - 1) + [s[n - 1]]
  }

  predicate Ascending(indices: seq<nat>) {
    forall i, j :: 0 <= i < j < |indices| ==> indices[i] <= indices[j]
  }

  // An in-range index that occurs twice has no larger in-range index after it.
  ghost predicate NoStuckCursor(indices: seq<nat>, n: nat) {
    forall i, j, k :: 0 <= i < j < |indices| && indices[i] == indices[j] && 0 <= k < |indices| ==>
      indices[i] < indices[k] ==> indices[k] >= n
  }

  // Before the cursor everything is smaller than what has been read; the cursor waits at the first
  // index not read yet, or it is stuck at a repetition.
  lemma {:induction false} CursorPlace(indices: seq<nat>, read: nat)
    requires Ascending(indices)
    ensures var ri := Cursor(indices, read);
            && (forall i :: 0 <= i < ri ==> indices[i] < read)
            && (forall i, j :: 0 <= i < j < ri ==> indices[i] < indices[j])
            && (ri < |indices| ==> read <= indices[ri] || (ri > 0 && indices[ri] == indices[ri - 1]))
  {
    if read > 0 {
      CursorPlace(indices, read - 1);
    }
  }

  /** Dropped means listed; and without a stuck cursor listed means dropped. */
  lemma DropsListed(indices: seq<nat>, n: nat, read: nat)
    requires Ascending(indices) && read < n
    ensures Drops(indices, read) ==> read in indices
    ensures NoStuckCursor(indices, n) && read in indices ==> Drops(indices, read)
  {
    var ri := Cursor(indices, read);
    CursorPlace(indices, read);
    if NoStuckCursor(indices, n) && read in indices {
      var k :| 0 <= k < |indices| && indices[k] == read;
      assert k >= ri;
    }
  }

  // A stuck cursor misses an index.
  lemma StuckMisses(indices: seq<nat>, n: nat, i: nat, j: nat, k: nat)
    requires Ascending(indices) && i < j < |indices| && indices[i] == indices[j] && k < |indices|
    requires indices[i] < indices[k] < n
    ensures !Drops(indices, indices[k])
  {
    // a cursor at indices[k] would have passed both copies, strictly increasing
    CursorPlace(indices, indices[k]);
  }

  // Removing 0, 0 and 1 from a list of two leaves element 1.
  lemma RepeatedIndexExample<T>(x: T, y: T)
    ensures Compact([x, y], [0, 0, 1], 2) == [y]
  {
    assert Cursor([0, 0, 1], 1) == 1 && Cursor([0, 0, 1], 2) == 1;
    assert Compact([x, y], [0, 0, 1], 1) == [];
  }

  /**
   Exactly when the compaction removes what it was asked to: when no in-range index is repeated below
   a larger in-range one. Distinct indices always satisfy it.
   */
  lemma RemovesListedIff(indices: seq<nat>, n: nat)
    requires Ascending(indices)
    ensures (forall read :: 0 <= read < n ==> (Drops(indices, read) <==> read in indices))
            <==> NoStuckCursor(indices, n)
  {
    hide Drops;
    forall read | 0 <= read < n
      ensures Drops(indices, read) ==> read in indices
      ensures NoStuckCursor(indices, n) && read in indices ==> Drops(indices, read)
    {
      DropsListed(indices, n, read);
    }
    if !NoStuckCursor(indices, n) {
      var i, j, k :| 0 <= i < j < |indices| && indices[i] == indices[j] && 0 <= k < |indices|
                     && indices[i] < indices[k] < n;
      StuckMisses(indices, n, i, j, k);
      assert indices[k] in indices;
    }
  }

  ghost predicate Distinct<T>(s: seq<T>) {
    forall i, j :: 0 <= i < j < |s| ==> s[i] != s[j]
  }

  // The elements the compaction drops among the first n, in order.
  function Dropped<T>(s: seq<T>, indices: seq<nat>, n: nat): seq<T>
    requires n <= |s|
  {
    if n == 0 then []
    else if Drops(indices, n - 1) then Dropped(s, indices, n - 1) + [s[n - 1]]
    else Dropped(s, indices, n - 1)
  }

  /** Nothing is lost or doubled: kept and dropped elements together are the list. */
  lemma {:induction false} CompactConserves<T>(s: seq<T>, indices: seq<nat>, n: nat)
    requires n <= |s|
    ensures multiset(Compact(s, indices, n)) + multiset(Dropped(s, indices, n)) == multiset(s[..n])
  {
    hide Drops;
    if n > 0 {
      CompactConserves(s, indices, n - 1);
      assert s[..n] == s[..n - 1] + [s[n - 1]];
      OneMore(Compact(s, indices, n - 1), Dropped(s, indices, n - 1), s[..n - 1], s[n - 1]);
    }
  }

  lemma OneMore<T>(a: seq<T>, b: seq<T>, s: seq<T>, x: T)
    requires multiset(a) + multiset(b) == multiset(s)
    ensures multiset(a + [x]) + multiset(b) == multiset(s + [x]) && multiset(a) + multiset(b + [x]) == multiset(s + [x])
  {
    PlusOne(multiset(a), multiset(b), multiset{x});
    assert multiset(a + [x]) == multiset(a) + multiset{x};
    assert multiset(b + [x]) == multiset(b) + multiset{x};
    assert multiset(s + [x]) == multiset(s) + multiset{x};
  }

  lemma PlusOne<T>(a: multiset<T>, b: multiset<T>, x: multiset<T>)
    ensures (a + x) + b == (a + b) + x && a + (b + x) == (a + b) + x
  {
  }

  predicate Below(indices: seq<nat>, n: nat) {
    forall i :: 0 <= i < |indices| ==> indices[i] < n
  }

  // The elements the first c indices name.
  function Named<T>(s: seq<T>, indices: seq<nat>, c: nat): (r: seq<T>)
    requires c <= |indices| && Below(indices, |s|)
    ensures |r| == c && forall i :: 0 <= i < c ==> r[i] == s[indices[i]]
  {
    seq(c, i requires 0 <= i < c => s[indices[i]])
  }

  /** The dropped elements are those the indices up to the cursor name. */
  lemma {:induction false} DroppedNamed<T>(s: seq<T>, indices: seq<nat>, n: nat)
    requires n <= |s| && Below(indices, |s|)
    ensures Dropped(s, indices, n) == Named(s, indices, Cursor(indices, n))
  {
    if n > 0 {
      DroppedNamed(s, indices, n - 1);
      var ri := Cursor(indices, n - 1);
      if Drops(indices, n - 1) {
        assert Named(s, indices, ri + 1) == Named(s, indices, ri) + [s[n - 1]];
      }
    } else {
      assert Named(s, indices, 0) == [];
    }
  }

  lemma CursorFinishes(indices: seq<nat>, n: nat)
    requires Ascending(indices) && Distinct(indices) && Below(indices, n)
    ensures Cursor(indices, n) == |indices|
  {
    CursorPlace(indices, n);
  }

  // A list made of some elements of a sorted list, in order.
  lemma {:induction false} CompactSorted(s: seq<SectionDesc>, indices: seq<nat>, n: nat)
    requires n <= |s| && Sorted(s)
    ensures Sorted(Compact(s, indices, n))
    ensures forall x :: x in Compact(s, indices, n) ==> x in s[..n]
  {
    hide Less, Drops;
    if n > 0 {
      CompactSorted(s, indices, n - 1);
      var r := Compact(s, indices, n - 1);
      forall i | 0 <= i < |r| ensures !Less(s[n - 1].basic, r[i].basic) {
        assert r[i] in s[..n - 1];
      }
      assert s[..n] == s[..n - 1] + [s[n - 1]];
      if !Drops(indices, n - 1) { SortedSnoc(r, s[n - 1]); }
    }
  }

  lemma PlaceIndex(r: seq<nat>, u: nat, x: nat)
    requires Ascending(r) && u <= |r| && (u > 0 ==> r[u - 1] <= x) && (forall j :: u <= j < |r| ==> r[j] > x)
    ensures Ascending(r[..u] + [x] + r[u..])
  {
    var t := r[..u] + [x] + r[u..];
    forall i, j | 0 <= i < j < |t| ensures t[i] <= t[j] {
      assert t[i] == (if i < u then r[i] else if i == u then x else r[i - 1]);
      assert t[j] == (if j < u then r[j] else if j == u then x else r[j - 1]);
      assert i < u ==> r[i] <= r[u - 1];
    }
  }

  lemma PlaceAdds(r: seq<nat>, u: nat, x: nat)
    requires u <= |r|
    ensures multiset(r[..u] + [x] + r[u..]) == multiset(r) + multiset{x}
  {
    assert r == r[..u] + r[u..];
  }

  // std::sort on the indices.
  method SortIndices(indices: seq<nat>) returns (r: seq<nat>)
    ensures Ascending(r) && multiset(r) == multiset(indices)
  {
    hide Ascending;
    r := [];
    AscendingEmpty();
    for i := 0 to |indices|
      invariant Ascending(r) && multiset(r) == multiset(indices[..i])
    {
      var u: nat := |r|;
      while u > 0 && r[u - 1] > indices[i]
        invariant u <= |r| && forall j :: u <= j < |r| ==> r[j] > indices[i]
      {
        u := u - 1;
      }
      PlaceIndex(r, u, indices[i]);
      PlaceAdds(r, u, indices[i]);
      assert indices[..i + 1] == indices[..i] + [indices[i]];
      r := r[..u] + [indices[i]] + r[u..];
    }
    assert indices[..|indices|] == indices;
  }

  lemma AscendingEmpty()
    ensures Ascending([])
  {
  }
}
