/**
 The keys of the collectives as the text they are formatted to. Different keys never get the same text,
 so the model may treat them as values.
 */
module EtcdKeys {
  import opened EtcdCollectives

  const DIGITS: string := "0123456789"

  function Digit(d: nat): (c: char)
    requires d < 10
    ensures '0' <= c <= '9'
  {
    DIGITS[d]
  }

  function Decimal(x: nat): string {
    if x < 10 then [Digit(x)] else Decimal(x / 10) + [Digit(x % 10)]
  }

  function DigitValue(c: char): nat
    requires '0' <= c <= '9'
  {
    c as int - '0' as int
  }

  predicate AllDigits(s: string) {
    forall i :: 0 <= i < |s| ==> '0' <= s[i] <= '9'
  }

  function Value(s: string): nat
    requires AllDigits(s)
  {
    if s == "" then 0 else 10 * Value(s[..|s| - 1]) + DigitValue(s[|s| - 1])
  }

  lemma DigitRoundTrip(d: nat)
    requires d < 10
    ensures DigitValue(Digit(d)) == d
  {
    match d
    case 0 => case 1 => case 2 => case 3 => case 4 => case 5 => case 6 => case 7 => case 8 => case 9 =>
    case _ =>
  }

  lemma {:induction false} DecimalRoundTrip(x: nat)
    ensures Decimal(x) != "" && AllDigits(Decimal(x)) && Value(Decimal(x)) == x
  {
    DigitRoundTrip(x % 10);
    if x >= 10 {
      DecimalRoundTrip(x / 10);
      assert Decimal(x)[..|Decimal(x)| - 1] == Decimal(x / 10);
    } else {
      assert Decimal(x)[..0] == "";
    }
  }

  // Texts without the separator, each followed by it, are told apart by what they make.
  lemma SplitUnique(a: string, x: string, b: string, y: string, c: char)
    requires c !in a && c !in b && a + [c] + x == b + [c] + y
    ensures a == b && x == y
  {
    var s := a + [c] + x;
    assert s[|a|] == c && s[|b|] == c;
    assert forall i :: 0 <= i < |a| ==> s[i] == a[i];
    assert forall i :: 0 <= i < |b| ==> s[i] == b[i];
    assert a == s[..|a|] && b == s[..|b|];
    assert x == s[|a| + 1..] && y == s[|b| + 1..];
  }

  function KindText(kind: Kind): string {
    match kind
    case KBarrier => "barrier"
    case KGather => "allgather"
    case KToAll => "alltoall"
    case KReduce => "all_reduce"
  }

  function SlotText(slot: Slot): string {
    match slot
    case From(r) => Decimal(r)
    case FromTo(r, d) => Decimal(r) + "_to_" + Decimal(d)
    case Result => "result"
  }

  // The key under the common prefix: kind, number of the call, slot.
  function KeyText(prefix: string, key: Key): string {
    prefix + "/" + (KindText(key.kind) + "/" + (Decimal(key.ix) + "/" + SlotText(key.slot)))
  }

  lemma KindUnique(a: Kind, b: Kind)
    requires KindText(a) == KindText(b)
    ensures a == b && '/' !in KindText(a)
  {
    assert |"barrier"| == 7 && |"allgather"| == 9 && |"alltoall"| == 8 && |"all_reduce"| == 10;
  }

  lemma DecimalUnique(x: nat, y: nat)
    requires Decimal(x) == Decimal(y)
    ensures x == y
  {
    DecimalRoundTrip(x);
    DecimalRoundTrip(y);
  }

  lemma SlotUnique(a: Slot, b: Slot)
    requires SlotText(a) == SlotText(b)
    ensures a == b
  {
    hide Decimal, SlotText;
    SlotShape(a);
    SlotShape(b);
    if a.From? {
      FromUnique(a.r, b.r);
    } else if a.FromTo? {
      FromToUnique(a.r, a.d, b.r, b.d);
    }
  }

  lemma FromUnique(r: Rank, q: Rank)
    requires SlotText(From(r)) == SlotText(From(q))
    ensures r == q
  {
    hide Decimal;
    DecimalUnique(r, q);
  }

  lemma FromToUnique(r: Rank, d: Rank, q: Rank, e: Rank)
    requires SlotText(FromTo(r, d)) == SlotText(FromTo(q, e))
    ensures r == q && d == e
  {
    hide Decimal, Value;
    DecimalRoundTrip(r);
    DecimalRoundTrip(q);
    FromToText(r, d);
    FromToText(q, e);
    SplitUnique(Decimal(r), "to_" + Decimal(d), Decimal(q), "to_" + Decimal(e), '_');
    assert Decimal(d) == ("to_" + Decimal(d))[3..] && Decimal(e) == ("to_" + Decimal(e))[3..];
    DecimalUnique(r, q);
    DecimalUnique(d, e);
  }

  lemma FromToText(r: Rank, d: Rank)
    ensures SlotText(FromTo(r, d)) == Decimal(r) + ['_'] + ("to_" + Decimal(d))
  {
    hide Decimal;
    assert "_to_" == ['_'] + "to_";
  }

  // The three kinds of slots differ in their first character or in holding an underscore.
  lemma SlotShape(slot: Slot)
    ensures SlotText(slot) != ""
    ensures slot.Result? <==> SlotText(slot)[0] == 'r'
    ensures slot.FromTo? <==> '_' in SlotText(slot)
  {
    match slot
    case From(r) => DecimalRoundTrip(r);
    case FromTo(r, d) =>
      DecimalRoundTrip(r);
      assert SlotText(slot)[|Decimal(r)|] == '_';
      assert SlotText(slot)[0] == Decimal(r)[0];
    case Result =>
      assert '_' !in "result";
  }

  /** Different keys have different texts. */
  lemma KeyTextUnique(prefix: string, a: Key, b: Key)
    requires KeyText(prefix, a) == KeyText(prefix, b)
    ensures a == b
  {
    var ta, tb := Decimal(a.ix) + "/" + SlotText(a.slot), Decimal(b.ix) + "/" + SlotText(b.slot);
    var ra, rb := KindText(a.kind) + "/" + ta, KindText(b.kind) + "/" + tb;
    assert ra == KeyText(prefix, a)[|prefix| + 1..] && rb == KeyText(prefix, b)[|prefix| + 1..];
    KindPlain(a.kind);
    KindPlain(b.kind);
    SplitUnique(KindText(a.kind), ta, KindText(b.kind), tb, '/');
    KindUnique(a.kind, b.kind);
    DecimalRoundTrip(a.ix);
    DecimalRoundTrip(b.ix);
    SplitUnique(Decimal(a.ix), SlotText(a.slot), Decimal(b.ix), SlotText(b.slot), '/');
    DecimalUnique(a.ix, b.ix);
    SlotUnique(a.slot, b.slot);
  }

  lemma KindPlain(kind: Kind)
    ensures '/' !in KindText(kind)
  {
  }
}
