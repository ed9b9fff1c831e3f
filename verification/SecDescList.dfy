/** The section list object, its operations, and what holds after any run of them. */
module SecDescLists {
  import opened Descriptors
  import opened Coverage
  import opened SectionList

  class SecDescList {
    const memType: MemType
    var descs: seq<SectionDesc>

    ghost predicate Valid()
      reads this
    {
      Sorted(descs) && NoZeroLen(memType, descs)
    }

    constructor (t: MemType)
      ensures Valid() && memType == t && descs == []
    {
      memType, descs := t, [];
    }

    // A list as the section map holds it.
    constructor Of(t: MemType, list: seq<SectionDesc>)
      requires Sorted(list) && NoZeroLen(t, list)
      ensures Valid() && memType == t && descs == list
    {
      memType, descs := t, list;
    }

    method AddDesc(desc: SectionDesc)
      requires Valid()
      modifies this
      ensures Valid() && descs == Insert(old(descs), Normalize(memType, desc))
      ensures multiset(descs) == old(multiset(descs)) + multiset{Normalize(memType, desc)}
    {
      hide Sorted, Less, UpperBound;
      var normalized := Normalize(memType, desc);
      var at := UpperBound(descs, normalized.basic);
      InsertSorted(descs, normalized);
      InsertAdds(descs, normalized);
      NoZeroLenUnion(memType, descs, [normalized], Insert(descs, normalized));
      descs := descs[..at] + [normalized] + descs[at..];
    }

    // Only for a sorted, normalized, non-empty batch.
    method AddSortedDescs(batch: seq<SectionDesc>)
      requires Valid() && batch != [] && Sorted(batch) && NoZeroLen(memType, batch)
      modifies this
      ensures Valid() && descs == AddSorted(old(descs), batch)
      ensures multiset(descs) == old(multiset(descs)) + multiset(batch)
    {
      hide Merge, Less, Sorted;
      AddSortedKeeps(descs, batch);
      NoZeroLenUnion(memType, descs, batch, AddSorted(descs, batch));
      if descs == [] {
        descs := batch;
      } else if !Less(batch[0].basic, descs[|descs| - 1].basic) {
        descs := descs + batch;
      } else if !Less(descs[0].basic, batch[|batch| - 1].basic) {
        descs := batch + descs;
      } else {
        var oldDescs := descs;
        // vec.resize: the old elements, then default-constructed ones
        var blank := SectionDesc(BasicDesc(0, 0, 0), 0, []);
        var vec := new SectionDesc[|descs| + |batch|](i => if 0 <= i < |oldDescs| then oldDescs[i] else blank);
        assert vec[..|oldDescs|] == oldDescs;
        MergeInPlace(vec, |oldDescs|, batch, blank);
        descs := vec[..];
      }
    }

    method AddDescs(batch: seq<SectionDesc>, sorted: bool) returns (ghost arranged: seq<SectionDesc>)
      requires Valid() && (sorted ==> Sorted(NormalizeAll(memType, batch)))
      modifies this
      ensures Valid()
      ensures multiset(descs) == old(multiset(descs)) + multiset(NormalizeAll(memType, batch))
      ensures |batch| == 0 ==> descs == old(descs)
      ensures |batch| == 1 ==> descs == Insert(old(descs), Normalize(memType, batch[0]))
      ensures |batch| > 1 ==> arranged != [] && Sorted(arranged) && descs == AddSorted(old(descs), arranged)
      ensures |batch| > 1 ==> multiset(arranged) == multiset(NormalizeAll(memType, batch))
      ensures |batch| > 1 && sorted ==> arranged == NormalizeAll(memType, batch)
    {
      hide Sorted, Less, AddSorted, Insert;
      arranged := [];
      if batch == [] {
        assert NormalizeAll(memType, batch) == [];
        return;
      }
      if |batch| == 1 {
        assert NormalizeAll(memType, batch) == [Normalize(memType, batch[0])];
        AddDesc(batch[0]);
        return;
      }
      var normalized := NormalizeAll(memType, batch);
      if sorted {
        AddSortedDescs(normalized);
        arranged := normalized;
      } else {
        var inOrder := Sort(normalized);
        NoZeroLenUnion(memType, normalized, [], inOrder);
        NotEmpty(normalized, inOrder);
        AddSortedDescs(inOrder);
        arranged := inOrder;
      }
    }

    /**
     Removal by index, compacting in place. `order` is the sorted index list. The list afterwards is
     the old one without the struck positions; `StrikesNamedIff` says when those are the named ones.
     */
    method RemDescs(indices: seq<nat>) returns (ghost order: seq<nat>)
      requires Valid()
      modifies this
      ensures Valid() && Ascending(order) && multiset(order) == multiset(indices)
      ensures descs == Compact(old(descs), order, |old(descs)|) == Staying(old(descs), indices, |old(descs)|)
    {
      hide Sorted, Less, Drops, Staying, Going;
      var sorted := SortIndices(indices);
      order := sorted;
      ghost var before := descs;
      CompactStays(before, indices, sorted, |before|);
      if indices == [] {
        assert sorted == [];
        CompactNone(before, |before|);
        return;
      }
      var ri, write, read := 0, 0, 0;
      while read < |descs|
        invariant read <= |descs| == |before| && write <= read && ri == Cursor(sorted, read)
        invariant write == |Compact(before, sorted, read)| && descs[..write] == Compact(before, sorted, read)
        invariant descs[read..] == before[read..]
      {
        DropsCursor(sorted, read);
        assert descs[read] == descs[read..][0] == before[read];
        assert descs[read + 1..] == descs[read..][1..] == before[read..][1..] == before[read + 1..];
        if ri < |sorted| && read == sorted[ri] {
          ri := ri + 1;
        } else {
          ghost var was := descs;
          if write != read {
            descs := descs[write := descs[read]];
          }
          assert descs[..write + 1] == was[..write] + [before[read]];
          assert descs[read + 1..] == was[read + 1..];
          write := write + 1;
        }
        read := read + 1;
      }
      CompactSorted(before, sorted, |before|);
      assert before[..|before|] == before;
      NoZeroLenSubset(memType, before, Compact(before, sorted, |before|));
      descs := descs[..write];
    }

    method GetIndex(query: BasicDesc) returns (r: int)
      requires Valid()
      ensures -1 <= r < |descs|
      ensures r >= 0 ==>
                descs[r].basic == NormalizeQuery(memType, query) && forall i :: 0 <= i < r ==>
                  descs[i].basic != NormalizeQuery(memType, query)
      ensures r < 0 ==> forall i :: 0 <= i < |descs| ==> descs[i].basic != NormalizeQuery(memType, query)
    {
      var q := NormalizeQuery(memType, query);
      var at := LowerBound(descs, q);
      r := if at == |descs| || descs[at].basic != q then -1 else at;
    }
  }

  lemma NotEmpty(s: seq<SectionDesc>, r: seq<SectionDesc>)
    requires s != [] && multiset(r) == multiset(s)
    ensures r != []
  {
    assert s[0] in multiset(s);
  }

  lemma NoZeroLenUnion(t: MemType, a: seq<SectionDesc>, b: seq<SectionDesc>, r: seq<SectionDesc>)
    requires NoZeroLen(t, a) && NoZeroLen(t, b) && multiset(r) == multiset(a) + multiset(b)
    ensures NoZeroLen(t, r)
  {
    forall i | 0 <= i < |r| ensures r[i] in a || r[i] in b {
      assert r[i] in multiset(r);
      assert r[i] in multiset(a) || r[i] in multiset(b);
    }
  }

  lemma NoZeroLenSubset(t: MemType, s: seq<SectionDesc>, r: seq<SectionDesc>)
    requires NoZeroLen(t, s) && forall x :: x in r ==> x in s
    ensures NoZeroLen(t, r)
  {
    forall i | 0 <= i < |r| ensures r[i] in s {
      assert r[i] in r;
    }
  }

  lemma DropsCursor(indices: seq<nat>, read: nat)
    ensures Drops(indices, read) == (Cursor(indices, read) < |indices| && read == indices[Cursor(indices, read)])
    ensures Cursor(indices, read + 1) == if Drops(indices, read) then Cursor(indices, read) + 1
                                         else Cursor(indices, read)
  {
  }

  lemma {:induction false} CompactNone(s: seq<SectionDesc>, n: nat)
    requires n <= |s|
    ensures Compact(s, [], n) == s[..n]
  {
    if n > 0 { CompactNone(s, n - 1); }
  }

  // ---- Which positions a removal strikes ----

  // Position p is removed: it is listed, and nothing below it is listed twice.
  ghost predicate Struck(indices: seq<nat>, p: nat) {
    p in indices && forall q: nat :: q < p ==> multiset(indices)[q] <= 1
  }

  // What stays of the first n elements, and what goes.
  ghost function Staying<T>(s: seq<T>, indices: seq<nat>, n: nat): seq<T>
    requires n <= |s|
  {
    if n == 0 then []
    else if Struck(indices, n - 1) then Staying(s, indices, n - 1)
    else Staying(s, indices, n - 1) + [s[n - 1]]
  }

  ghost function Going<T>(s: seq<T>, indices: seq<nat>, n: nat): seq<T>
    requires n <= |s|
  {
    if n == 0 then []
    else if Struck(indices, n - 1) then Going(s, indices, n - 1) + [s[n - 1]]
    else Going(s, indices, n - 1)
  }

  lemma {:induction false} TwicePair(s: seq<nat>, q: nat) returns (i: nat, j: nat)
    requires multiset(s)[q] >= 2
    ensures i < j < |s| && s[i] == s[j] == q
  {
    var n := |s| - 1;
    assert s == s[..n] + [s[n]];
    if s[n] == q {
      assert q in multiset(s[..n]);
      i := IndexIn(s[..n], q);
      j := n;
    } else {
      i, j := TwicePair(s[..n], q);
    }
  }

  lemma IndexIn(s: seq<nat>, q: nat) returns (i: nat)
    requires q in s
    ensures i < |s| && s[i] == q
  {
    i :| i < |s| && s[i] == q;
  }

  /** The cursor over the sorted indices removes exactly the struck positions. */
  lemma DropsStruck(indices: seq<nat>, order: seq<nat>, p: nat)
    requires Ascending(order) && multiset(order) == multiset(indices)
    ensures Drops(order, p) <==> Struck(indices, p)
  {
    hide Drops, Ascending;
    assert p in order <==> p in indices by { assert p in multiset(order) <==> p in multiset(indices); }
    DropsListed(order, p + 1, p);
    if p in order {
      if q: nat :| q < p && multiset(indices)[q] >= 2 {
        var i, j := TwicePair(order, q);
        var k := IndexIn(order, p);
        StuckMisses(order, p + 1, i, j, k);
      } else {
        forall i, j, k | 0 <= i < j < |order| && order[i] == order[j] && 0 <= k < |order| && order[i] < order[k]
          ensures order[k] >= p + 1
        {
          CountsTwice(order, i, j);
        }
        assert NoStuckCursor(order, p + 1);
      }
    }
  }

  lemma {:induction false} CompactStays<T>(s: seq<T>, indices: seq<nat>, order: seq<nat>, n: nat)
    requires n <= |s| && Ascending(order) && multiset(order) == multiset(indices)
    ensures Compact(s, order, n) == Staying(s, indices, n) && Dropped(s, order, n) == Going(s, indices, n)
    decreases n
  {
    hide Drops, Struck, Ascending;
    if n > 0 {
      CompactStays(s, indices, order, n - 1);
      DropsStruck(indices, order, n - 1);
    }
  }

  // A removal takes away what it strikes and nothing else.
  lemma StayingGoing<T>(s: seq<T>, indices: seq<nat>, n: nat)
    requires n <= |s|
    ensures multiset(Staying(s, indices, n)) + multiset(Going(s, indices, n)) == multiset(s[..n])
  {
    hide Staying, Going, Compact, Dropped;
    var order := Arrange(indices);
    CompactStays(s, indices, order, n);
    CompactConserves(s, order, n);
  }

  // For distinct indices of the list, what goes is what they name.
  lemma GoingNamed(s: seq<SectionDesc>, indices: seq<nat>)
    requires DistinctInRange(indices, |s|)
    ensures multiset(Going(s, indices, |s|)) == multiset(Named(s, indices, |indices|))
  {
    hide Struck, Ascending, Going;
    var order := Arrange(indices);
    CompactStays(s, indices, order, |s|);
    SameElements(indices, order, |s|);
    CursorFinishes(order, |s|);
    DroppedNamed(s, order, |s|);
    NamedPermuted(s, indices, order);
  }

  lemma {:induction false} GoingAtMost<T>(s: seq<T>, indices: seq<nat>, n: nat, w: seq<nat>)
    requires n <= |s| && forall p: nat :: p < n && Struck(indices, p) ==> p in w
    ensures |Going(s, indices, n)| <= |w|
    decreases n
  {
    hide Struck;
    if n > 0 {
      if Struck(indices, n - 1) {
        var k := IndexIn(w, n - 1);
        WithoutSize(w, k);
        forall p: nat | p < n - 1 && Struck(indices, p) ensures p in Without(w, k) {
          var i := IndexIn(w, p);
          assert Without(w, k)[if i < k then i else i - 1] == p;
        }
        GoingAtMost(s, indices, n - 1, Without(w, k));
      } else {
        GoingAtMost(s, indices, n - 1, w);
      }
    }
  }

  lemma WithoutSize<T>(s: seq<T>, k: nat)
    requires k < |s|
    ensures |Without(s, k)| == |s| - 1
  {
  }

  lemma RepeatedGoesLess(s: seq<SectionDesc>, indices: seq<nat>, i: nat, j: nat)
    requires i < j < |indices| && indices[i] == indices[j]
    ensures |Going(s, indices, |s|)| < |indices|
  {
    hide Going;
    WithoutSize(indices, j);
    forall p: nat | p < |s| && Struck(indices, p) ensures p in Without(indices, j) {
      var k := IndexIn(indices, p);
      if k == j {
        assert Without(indices, j)[i] == p;
      } else {
        assert Without(indices, j)[if k < j then k else k - 1] == p;
      }
    }
    GoingAtMost(s, indices, |s|, Without(indices, j));
  }

  /** A removal strikes exactly the elements its indices name if and only if no index is repeated. */
  lemma StrikesNamedIff(s: seq<SectionDesc>, indices: seq<nat>)
    requires Below(indices, |s|)
    ensures multiset(Going(s, indices, |s|)) == multiset(Named(s, indices, |indices|))
            <==> DistinctInRange(indices, |s|)
  {
    hide Going, Named;
    if DistinctInRange(indices, |s|) {
      GoingNamed(s, indices);
    } else {
      var i, j :| 0 <= i < j < |indices| && indices[i] == indices[j];
      RepeatedGoesLess(s, indices, i, j);
      assert |multiset(Going(s, indices, |s|))| == |Going(s, indices, |s|)|;
      assert |multiset(Named(s, indices, |indices|))| == |indices|;
    }
  }

  // ---- Runs ----

  datatype ListOp = Add(desc: SectionDesc) | AddBatch(batch: seq<SectionDesc>) | Remove(indices: seq<nat>)

  function AddedBy(t: MemType, op: ListOp): multiset<SectionDesc> {
    match op
    case Add(d) => multiset{Normalize(t, d)}
    case AddBatch(b) => multiset(NormalizeAll(t, b))
    case Remove(_) => multiset{}
  }

  ghost function RemovedBy(list: seq<SectionDesc>, op: ListOp): multiset<SectionDesc> {
    match op
    case Add(_) => multiset{}
    case AddBatch(_) => multiset{}
    case Remove(indices) => multiset(Going(list, indices, |list|))
  }

  // One operation turns one list into the other.
  ghost predicate StepOf(t: MemType, list: seq<SectionDesc>, op: ListOp, after: seq<SectionDesc>) {
    && Sorted(after) && NoZeroLen(t, after)
    && multiset(after) + RemovedBy(list, op) == multiset(list) + AddedBy(t, op)
    && (op.Add? ==> after == Insert(list, Normalize(t, op.desc)))
    && (op.Remove? ==> after == Staying(list, op.indices, |list|))
  }

  // The lists between the operations of a run.
  ghost predicate Traces(t: MemType, trace: seq<seq<SectionDesc>>, ops: seq<ListOp>) {
    |trace| == |ops| + 1 && forall i :: 0 <= i < |ops| ==> StepOf(t, trace[i], ops[i], trace[i + 1])
  }

  // What a run of operations adds, and what it removes.
  function Added(t: MemType, ops: seq<ListOp>): multiset<SectionDesc> {
    if ops == [] then multiset{} else Added(t, ops[..|ops| - 1]) + AddedBy(t, ops[|ops| - 1])
  }

  ghost function Removed(trace: seq<seq<SectionDesc>>, ops: seq<ListOp>): multiset<SectionDesc>
    requires |trace| >= |ops|
  {
    if ops == [] then multiset{}
    else Removed(trace, ops[..|ops| - 1]) + RemovedBy(trace[|ops| - 1], ops[|ops| - 1])
  }

  /** Conservation: after any run the list is what it was and what was added, minus what was removed. */
  lemma {:induction false} RunConserves(t: MemType, trace: seq<seq<SectionDesc>>, ops: seq<ListOp>)
    requires Traces(t, trace, ops)
    ensures multiset(trace[|ops|]) + Removed(trace, ops) == multiset(trace[0]) + Added(t, ops)
    decreases |ops|
  {
    hide Sorted, NoZeroLen, RemovedBy, AddedBy, Insert, Staying;
    if ops != [] {
      var n := |ops| - 1;
      RunConserves(t, trace[..n + 1], ops[..n]);
      RemovedPrefix(trace[..n + 1], trace, ops[..n]);
      assert StepOf(t, trace[n], ops[n], trace[n + 1]);
      Balance(multiset(trace[n + 1]), RemovedBy(trace[n], ops[n]), multiset(trace[n]), AddedBy(t, ops[n]),
              Removed(trace, ops[..n]), multiset(trace[0]), Added(t, ops[..n]));
    }
  }

  lemma {:induction false} RemovedPrefix(a: seq<seq<SectionDesc>>, b: seq<seq<SectionDesc>>, ops: seq<ListOp>)
    requires |ops| <= |a| <= |b| && a == b[..|a|]
    ensures Removed(a, ops) == Removed(b, ops)
    decreases |ops|
  {
    hide RemovedBy;
    if ops != [] { RemovedPrefix(a, b, ops[..|ops| - 1]); }
  }

  lemma Balance<T>(have: multiset<T>, gone: multiset<T>, had: multiset<T>, came: multiset<T>,
                   removed: multiset<T>, start: multiset<T>, added: multiset<T>)
    requires have + gone == had + came && had + removed == start + added
    ensures have + (removed + gone) == start + (added + came)
  {
    forall x ensures (have + (removed + gone))[x] == (start + (added + came))[x] {
      assert (have + gone)[x] == (had + came)[x] && (had + removed)[x] == (start + added)[x];
    }
  }

  predicate DistinctInRange(indices: seq<nat>, n: nat) {
    Below(indices, n) && forall i, j :: 0 <= i < j < |indices| ==> indices[i] != indices[j]
  }

  // The elements distinct indices name are what a removal takes away.
  lemma RemoveConserves(s: seq<SectionDesc>, indices: seq<nat>, order: seq<nat>)
    requires DistinctInRange(indices, |s|) && Ascending(order) && multiset(order) == multiset(indices)
    ensures multiset(Compact(s, order, |s|)) + multiset(Named(s, indices, |indices|)) == multiset(s)
  {
    SameElements(indices, order, |s|);
    CursorFinishes(order, |s|);
    DroppedNamed(s, order, |s|);
    CompactConserves(s, order, |s|);
    assert s[..|s|] == s;
    NamedPermuted(s, indices, order);
  }

  lemma SameElements(indices: seq<nat>, order: seq<nat>, n: nat)
    requires DistinctInRange(indices, n) && multiset(order) == multiset(indices)
    ensures |order| == |indices| && Distinct(order) && Below(order, n)
  {
    assert |multiset(order)| == |order| && |multiset(indices)| == |indices|;
    forall i | 0 <= i < |order| ensures order[i] < n {
      assert order[i] in multiset(order);
      assert order[i] in indices;
    }
    DistinctCounts(indices);
    forall i, j | 0 <= i < j < |order| ensures order[i] != order[j] {
      if order[i] == order[j] { CountsTwice(order, i, j); }
    }
  }

  lemma CountsTwice(s: seq<nat>, i: nat, j: nat)
    requires i < j < |s| && s[i] == s[j]
    ensures multiset(s)[s[i]] >= 2
  {
    assert s == s[..i] + [s[i]] + s[i + 1..j] + [s[j]] + s[j + 1..];
  }

  lemma {:induction false} DistinctCounts(indices: seq<nat>)
    requires Distinct(indices)
    ensures forall x :: multiset(indices)[x] <= 1
  {
    if indices != [] {
      var n := |indices| - 1;
      DistinctCounts(indices[..n]);
      assert indices == indices[..n] + [indices[n]];
      assert indices[n] !in indices[..n];
    }
  }

  function Without<T>(s: seq<T>, k: nat): seq<T>
    requires k < |s|
  {
    s[..k] + s[k + 1..]
  }

  lemma WithoutCounts<T>(s: seq<T>, k: nat)
    requires k < |s|
    ensures multiset(s) == multiset(Without(s, k)) + multiset{s[k]}
  {
    assert s == s[..k] + [s[k]] + s[k + 1..];
  }

  lemma WithoutEqual<T>(s: seq<T>, i: nat, t: seq<T>, k: nat)
    requires i < |s| && k < |t| && s[i] == t[k]
    ensures multiset(s) == multiset(t) <==> multiset(Without(s, i)) == multiset(Without(t, k))
  {
    hide Without;
    WithoutCounts(s, i);
    WithoutCounts(t, k);
    CancelOne(multiset(Without(s, i)), multiset(Without(t, k)), s[i]);
  }

  lemma CancelOne<T>(a: multiset<T>, b: multiset<T>, x: T)
    ensures a + multiset{x} == b + multiset{x} <==> a == b
  {
    assert a == a + multiset{x} - multiset{x};
    assert b == b + multiset{x} - multiset{x};
  }

  lemma NamedWithout(s: seq<SectionDesc>, b: seq<nat>, k: nat)
    requires k < |b| && Below(b, |s|)
    ensures |Without(b, k)| == |b| - 1 && Below(Without(b, k), |s|)
    ensures Named(s, Without(b, k), |b| - 1) == Without(Named(s, b, |b|), k)
  {
  }

  // Naming elements in another order names the same elements.
  lemma {:induction false} NamedPermuted(s: seq<SectionDesc>, a: seq<nat>, b: seq<nat>)
    requires multiset(a) == multiset(b)
    requires Below(a, |s|) && Below(b, |s|)
    ensures multiset(Named(s, a, |a|)) == multiset(Named(s, b, |b|))
    decreases |a|
  {
    hide Named, Below, Without;
    if a == [] || b == [] {
      EmptyCounts(a, b);
    } else {
      assert a[0] in multiset(b);
      var k :| 0 <= k < |b| && b[k] == a[0];
      NamedWithout(s, a, 0);
      NamedWithout(s, b, k);
      WithoutEqual(a, 0, b, k);
      NamedPermuted(s, Without(a, 0), Without(b, k));
      WithoutEqual(Named(s, a, |a|), 0, Named(s, b, |b|), k);
    }
  }

  lemma EmptyCounts(a: seq<nat>, b: seq<nat>)
    requires multiset(a) == multiset(b) && (a == [] || b == [])
    ensures a == b == []
  {
    assert |multiset(a)| == |a| && |multiset(b)| == |b|;
  }

  // A place for x in an ascending list.
  lemma {:induction false} Place(r: seq<nat>, x: nat, n: nat) returns (u: nat)
    requires Ascending(r) && n <= |r| && (forall j :: n <= j < |r| ==> r[j] > x)
    ensures u <= n && (u > 0 ==> r[u - 1] <= x) && (forall j :: u <= j < |r| ==> r[j] > x)
    decreases n
  {
    if n > 0 && r[n - 1] > x { u := Place(r, x, n - 1); } else { u := n; }
  }

  lemma {:induction false} Arrange(indices: seq<nat>) returns (order: seq<nat>)
    ensures Ascending(order) && multiset(order) == multiset(indices)
  {
    if indices == [] {
      order := [];
    } else {
      var n := |indices| - 1;
      var rest := Arrange(indices[..n]);
      var u := Place(rest, indices[n], |rest|);
      PlaceIndex(rest, u, indices[n]);
      PlaceAdds(rest, u, indices[n]);
      assert indices == indices[..n] + [indices[n]];
      order := rest[..u] + [indices[n]] + rest[u..];
    }
  }

  // One operation, on the list object.
  method ApplyOp(list: SecDescList, op: ListOp)
    requires list.Valid()
    modifies list
    ensures list.Valid() && StepOf(list.memType, old(list.descs), op, list.descs)
  {
    hide Less, Compact, Drops, Insert, Named, Sorted, NoZeroLen, Staying, Going;
    match op {
      case Add(d) => list.AddDesc(d);
      case AddBatch(b) => ghost var _ := list.AddDescs(b, false);
      case Remove(indices) =>
        ghost var before := list.descs;
        ghost var order := list.RemDescs(indices);
        StayingGoing(before, indices, |before|);
        assert before[..|before|] == before;
    }
  }

  /**
   Over any run of insertions, batch merges and removals by any indices the list stays sorted, holds no
   zero length where lengths are unbounded, and holds exactly what was added minus what the removals
   struck from the lists they met.
   */
  method RunOps(list: SecDescList, ops: seq<ListOp>) returns (ghost trace: seq<seq<SectionDesc>>)
    requires list.Valid()
    modifies list
    ensures list.Valid()
    ensures Traces(list.memType, trace, ops) && trace[0] == old(list.descs) && trace[|ops|] == list.descs
    ensures multiset(list.descs) + Removed(trace, ops) == old(multiset(list.descs)) + Added(list.memType, ops)
  {
    hide Sorted, NoZeroLen, Added, Removed, StepOf;
    trace := [list.descs];
    for i := 0 to |ops|
      invariant list.Valid() && Traces(list.memType, trace, ops[..i])
      invariant trace[0] == old(list.descs) && trace[i] == list.descs
    {
      ghost var before := trace;
      ApplyOp(list, ops[i]);
      trace := trace + [list.descs];
      assert forall j :: 0 <= j < |before| ==> trace[j] == before[j];
    }
    assert ops[..|ops|] == ops;
    RunConserves(list.memType, trace, ops);
  }
}
