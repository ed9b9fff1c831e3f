/**
 Coverage: which registered range of a sorted section list holds a queried range.

 The code has three tests for it: `covers`, the same test with the end of the covering range
 cached, and a shorter one for a query that follows a covered query in order.
 */
module Coverage {
  import opened MachineInt
  import opened Descriptors

  predicate Covers(c: BasicDesc, q: BasicDesc) {
    if c.devId != q.devId || c.addr > q.addr then false
    else if c.len == MAX_64 then q.len <= MAX_64 - q.addr
    else
      var end := Add64(c.addr, c.len);
      q.addr <= end && q.len <= end - q.addr
  }

  function RangeEnd(d: BasicDesc): u64 {
    if d.len == MAX_64 then MAX_64 else Add64(d.addr, d.len)
  }

  predicate CoversWithEnd(c: BasicDesc, end: u64, q: BasicDesc) {
    var queryEnd := Add64(q.addr, q.len);
    c.devId == q.devId && c.addr <= q.addr && queryEnd >= q.addr && queryEnd <= end
  }

  predicate CoversFollowingWithEnd(c: BasicDesc, end: u64, q: BasicDesc) {
    var queryEnd := Add64(q.addr, q.len);
    c.devId == q.devId && queryEnd >= q.addr && queryEnd <= end
  }

  // A range that does not wrap; an unbounded one ends at the last address.
  predicate Regular(d: BasicDesc) {
    d.len == MAX_64 || d.addr + d.len < TWO_64
  }

  function End(d: BasicDesc): int {
    if d.len == MAX_64 then MAX_64 else d.addr + d.len
  }

  predicate Contains(c: BasicDesc, q: BasicDesc) {
    c.devId == q.devId && c.addr <= q.addr && q.addr + q.len <= End(c)
  }

  /** The first two tests agree on all 64-bit inputs, and mean containment of ranges. */
  lemma CoverTestsAgree(c: BasicDesc, q: BasicDesc)
    ensures CoversWithEnd(c, RangeEnd(c), q) == Covers(c, q)
    ensures Regular(c) ==> Covers(c, q) == Contains(c, q)
    ensures !Regular(c) ==> !Covers(c, q)
  {
  }

  /** The short test agrees after a covered query that does not come later in the order. */
  lemma CoversFollowingAgrees(c: BasicDesc, p: BasicDesc, q: BasicDesc)
    requires Covers(c, p) && !Less(q, p)
    ensures CoversFollowingWithEnd(c, RangeEnd(c), q) == Covers(c, q)
  {
  }

  // Sorted as nixlSecDescList keeps it.
  predicate Sorted(base: seq<SectionDesc>) {
    forall i, j :: 0 <= i < j < |base| ==> !Less(base[j].basic, base[i].basic)
  }

  predicate Overlap(a: BasicDesc, b: BasicDesc) {
    a.devId == b.devId && a.addr < End(b) && b.addr < End(a)
  }

  predicate HasByte(d: BasicDesc, x: int) {
    d.addr <= x < End(d)
  }

  /** Ranges overlap exactly when they share a byte, so ranges that only touch do not. */
  lemma OverlapMeans(a: BasicDesc, b: BasicDesc)
    requires a.len > 0 && b.len > 0 && Regular(a) && Regular(b)
    ensures Overlap(a, b) <==> a.devId == b.devId && exists x :: HasByte(a, x) && HasByte(b, x)
  {
    var x := if a.addr < b.addr then b.addr else a.addr;
    if Overlap(a, b) { assert HasByte(a, x) && HasByte(b, x); }
  }

  // Registrations as the code expects them from the user: non-empty, non-wrapping and disjoint.
  predicate Registered(base: seq<SectionDesc>) {
    && Sorted(base)
    && (forall i :: 0 <= i < |base| ==> base[i].basic.len > 0 && base[i].basic.addr < MAX_64 && Regular(base[i].basic))
    && (forall i, j :: 0 <= i < j < |base| ==> !Overlap(base[i].basic, base[j].basic))
  }

  // Sections of one device follow each other.
  lemma SectionsInOrder(base: seq<SectionDesc>, i: nat, j: nat)
    requires Registered(base) && i < j < |base| && base[i].basic.devId == base[j].basic.devId
    ensures End(base[i].basic) <= base[j].basic.addr
  {
    assert !Less(base[j].basic, base[i].basic) && !Overlap(base[i].basic, base[j].basic);
  }

  ghost predicate Covered(base: seq<SectionDesc>, q: BasicDesc) {
    exists k :: 0 <= k < |base| && Covers(base[k].basic, q)
  }

  ghost predicate AllCovered(base: seq<SectionDesc>, query: seq<BasicDesc>) {
    forall i :: 0 <= i < |query| ==> Covered(base, query[i])
  }

  /** A query of positive length is covered by at most one section. */
  lemma CoveringUnique(base: seq<SectionDesc>, q: BasicDesc, i: nat, j: nat)
    requires Registered(base) && i < |base| && j < |base| && q.len > 0
    requires Covers(base[i].basic, q) && Covers(base[j].basic, q)
    ensures i == j
  {
    CoverTestsAgree(base[i].basic, q);
    CoverTestsAgree(base[j].basic, q);
    if i < j { SectionsInOrder(base, i, j); } else if j < i { SectionsInOrder(base, j, i); }
  }

  // std::lower_bound: the first section that is not less than the query.
  function LowerBound(base: seq<SectionDesc>, q: BasicDesc): (r: nat)
    ensures r <= |base|
    ensures forall i :: 0 <= i < r ==> Less(base[i].basic, q)
    ensures r < |base| ==> !Less(base[r].basic, q)
  {
    if base == [] || !Less(base[0].basic, q) then 0 else 1 + LowerBound(base[1..], q)
  }

  // Two probes around the lower bound.
  function GetCoveringIndex(base: seq<SectionDesc>, q: BasicDesc): (r: int)
    ensures -1 <= r < |base|
    ensures r >= 0 ==> Covers(base[r].basic, q)
  {
    var i := LowerBound(base, q);
    if i < |base| && Covers(base[i].basic, q) then i
    else if i > 0 && Covers(base[i - 1].basic, q) then i - 1
    else -1
  }

  /** Over disjoint registrations the two probes find a covering section whenever there is one. */
  lemma GetCoveringIndexComplete(base: seq<SectionDesc>, q: BasicDesc, k: nat)
    requires Registered(base) && k < |base| && Covers(base[k].basic, q)
    ensures GetCoveringIndex(base, q) >= 0
  {
    var i := LowerBound(base, q);
    CoverTestsAgree(base[k].basic, q);
    if k + 1 < i {
      // base[k] ends before base[i - 1] starts, and that is less than the query
      assert !Less(base[i - 1].basic, base[k].basic) && Less(base[i - 1].basic, q);
      SectionsInOrder(base, k, i - 1);
    } else if k > i {
      // base[i] ends before base[k] starts, and is not less than the query
      assert !Less(base[k].basic, base[i].basic) && !Less(base[i].basic, q);
      SectionsInOrder(base, i, k);
    }
  }
}
