/**
 * The hand key computed by the `Hand` constructor: the product of the five
 * cards' primes, negated when all five share a suit. The product is taken in
 * 32-bit arithmetic, as C# does; this module shows that it never wraps and
 * that the key identifies exactly the value-multiset and the flush flag.
 */
module HandKey {
  import opened Cards
  import Primes
  import Int32
  import Multisets

  /** The values of a sequence of cards, position by position. */
  function Values(cards: seq<Card>): seq<CardValue> {
    seq(|cards|, i requires 0 <= i < |cards| => cards[i].value)
  }

  /** All cards share one suit. */
  predicate IsFlush(cards: seq<Card>) {
    forall i, j :: 0 <= i < |cards| && 0 <= j < |cards| ==> cards[i].suit == cards[j].suit
  }

  lemma MulLe(a: int, b: int, x: int, y: int)
    requires 0 <= a <= x && 0 <= b <= y
    ensures a * b <= x * y
  {
    assert a * b <= x * b;
    assert x * b <= x * y;
  }

  /*
   * The three rearrangements below are true by arithmetic alone; they are
   * stated once as lemmas so that the proofs using them hand the solver one
   * small nonlinear step instead of a whole product to reorder.
   */

  lemma MulAssoc(p: int, x: int, y: int)
    ensures p * (x * y) == (p * x) * y
  {
  }

  lemma MulShuffle(p: int, x: int, y: int)
    ensures x * (p * y) == p * (x * y)
  {
  }

  lemma MulAssoc5(a: int, b: int, c: int, d: int, e: int)
    ensures a * (b * (c * (d * e))) == a * b * c * d * e
  {
  }

  /** The product of the primes of a sequence of values. */
  function ValueProduct(vs: seq<CardValue>): (r: nat)
    ensures r >= 1
    ensures |vs| > 0 ==> r >= 2
  {
    if vs == [] then 1
    else
      var rest := ValueProduct(vs[1..]);
      MulLe(2, 1, Prime(vs[0]), rest);
      Prime(vs[0]) * rest
  }

  lemma {:induction false} ValueProductAppend(a: seq<CardValue>, b: seq<CardValue>)
    ensures ValueProduct(a + b) == ValueProduct(a) * ValueProduct(b)
    decreases |a|
  {
    if a == [] {
      assert a + b == b;
    } else {
      Multisets.AppendTail(a, b);
      ValueProductAppend(a[1..], b);
      var p, x, y := Prime(a[0]), ValueProduct(a[1..]), ValueProduct(b);
      var whole, part := ValueProduct(a + b), ValueProduct(a);
      assert whole == p * ValueProduct(a[1..] + b);
      assert part == p * x;
      Regroup(whole, part, p, x, y);
    }
  }

  lemma Regroup(whole: int, part: int, p: int, x: int, y: int)
    requires whole == p * (x * y) && part == p * x
    ensures whole == part * y
  {
    MulAssoc(p, x, y);
  }

  /** Taking one value out of the sequence divides its prime out of the product. */
  lemma ValueProductRemove(b: seq<CardValue>, i: nat)
    requires i < |b|
    ensures ValueProduct(b) == Prime(b[i]) * ValueProduct(Multisets.RemoveAt(b, i))
  {
    var v, left, right := b[i], b[..i], b[i + 1..];
    var tail := [v] + right;
    Multisets.SplitAt(b, i);
    assert tail[0] == v && tail[1..] == right;
    var p, l, r := Prime(v), ValueProduct(left), ValueProduct(right);
    var whole, removed := ValueProduct(b), ValueProduct(Multisets.RemoveAt(b, i));
    assert whole == l * (p * r) by {
      ValueProductAppend(left, tail);
    }
    assert removed == l * r by {
      ValueProductAppend(left, right);
    }
    FactorOut(whole, removed, p, l, r);
  }

  lemma FactorOut(whole: int, removed: int, p: int, l: int, r: int)
    requires whole == l * (p * r) && removed == l * r
    ensures whole == p * removed
  {
    MulShuffle(p, l, r);
  }

  /** Reordering the values leaves their product unchanged. */
  lemma {:induction false} ValueProductPermutation(a: seq<CardValue>, b: seq<CardValue>)
    requires multiset(a) == multiset(b)
    ensures ValueProduct(a) == ValueProduct(b)
    decreases |a|
  {
    if a == [] {
      Multisets.EmptyPermutation(a, b);
    } else {
      var i := Multisets.SplitFirst(a, b);
      var rest := Multisets.RemoveAt(b, i);
      ValueProductPermutation(a[1..], rest);
      ValueProductRemove(b, i);
    }
  }

  /** A value absent from the sequence has a prime that does not divide the product. */
  lemma {:induction false} ProductNotDivisible(v: CardValue, vs: seq<CardValue>)
    requires v !in vs
    ensures ValueProduct(vs) % Prime(v) != 0
    decreases |vs|
  {
    if vs != [] {
      var w := vs[0];
      ProductNotDivisible(v, vs[1..]);
      PrimesAreDistinctPrimes(v, w);
      PrimesAreDistinctPrimes(w, v);
      if ValueProduct(vs) % Prime(v) == 0 {
        Primes.Euclid(Prime(v), Prime(w), ValueProduct(vs[1..]));
        assert false;
      }
    }
  }

  /** Unique factorisation over the card primes: the product determines the value-multiset. */
  lemma {:induction false} ProductDeterminesValues(a: seq<CardValue>, b: seq<CardValue>)
    requires ValueProduct(a) == ValueProduct(b)
    ensures multiset(a) == multiset(b)
    decreases |a|
  {
    if a == [] {
      assert b == [];
    } else {
      var v := a[0];
      var p := Prime(v);
      Primes.MultipleMod(p, ValueProduct(a[1..]));
      if v !in b {
        ProductNotDivisible(v, b);
        assert false;
      }
      var i :| 0 <= i < |b| && b[i] == v;
      var rest := Multisets.RemoveAt(b, i);
      ValueProductRemove(b, i);
      MulCancel(p, ValueProduct(a[1..]), ValueProduct(rest));
      ProductDeterminesValues(a[1..], rest);
      assert a == [v] + a[1..];
      assert v in multiset(b);
    }
  }

  lemma MulCancel(p: int, x: int, y: int)
    requires p > 0 && p * x == p * y
    ensures x == y
  {
  }

  /** Both directions: equal products exactly when equal value-multisets. */
  lemma ValueProductInjective(a: seq<CardValue>, b: seq<CardValue>)
    ensures ValueProduct(a) == ValueProduct(b) <==> multiset(a) == multiset(b)
  {
    if ValueProduct(a) == ValueProduct(b) {
      ProductDeterminesValues(a, b);
    }
    if multiset(a) == multiset(b) {
      ValueProductPermutation(a, b);
    }
  }

  /** The five partial products of the left-to-right C# multiplication fit in an `int`. */
  lemma FivePrimesFit(a: int, b: int, c: int, d: int, e: int)
    requires 2 <= a <= 41 && 2 <= b <= 41 && 2 <= c <= 41 && 2 <= d <= 41 && 2 <= e <= 41
    ensures 0 < a * b <= 1681
    ensures 0 < a * b * c <= 68921
    ensures 0 < a * b * c * d <= 2825761
    ensures 32 <= a * b * c * d * e <= 115856201
  {
    MulLe(2, 2, a, b);
    MulLe(4, 2, a * b, c);
    MulLe(8, 2, a * b * c, d);
    MulLe(16, 2, a * b * c * d, e);
    MulLe(a, b, 41, 41);
    MulLe(a * b, c, 1681, 41);
    MulLe(a * b * c, d, 68921, 41);
    MulLe(a * b * c * d, e, 2825761, 41);
  }

  lemma FiveValuesProduct(cards: seq<Card>)
    requires |cards| == 5
    ensures ValueProduct(Values(cards))
         == Prime(cards[0].value) * Prime(cards[1].value) * Prime(cards[2].value)
            * Prime(cards[3].value) * Prime(cards[4].value)
  {
    var vs := Values(cards);
    var p0, p1, p2, p3, p4 := Prime(vs[0]), Prime(vs[1]), Prime(vs[2]), Prime(vs[3]), Prime(vs[4]);
    assert |vs[4..]| == 1 && vs[4..][0] == vs[4] && vs[4..][1..] == [];
    assert ValueProduct([]) == 1;
    var r4 := ValueProduct(vs[4..]);
    assert r4 == p4 * 1;
    assert vs[3..][0] == vs[3] && vs[3..][1..] == vs[4..];
    var r3 := ValueProduct(vs[3..]);
    assert r3 == p3 * r4;
    assert vs[2..][0] == vs[2] && vs[2..][1..] == vs[3..];
    var r2 := ValueProduct(vs[2..]);
    assert r2 == p2 * r3;
    assert vs[1..][0] == vs[1] && vs[1..][1..] == vs[2..];
    var r1 := ValueProduct(vs[1..]);
    assert r1 == p1 * r2;
    assert ValueProduct(vs) == p0 * r1;
    MulAssoc5(p0, p1, p2, p3, p4);
  }

  /**
   * The key of `Hand(C1..C5, table)`: unchecked 32-bit products left to right,
   * then `key *= -1` when the suits chain-compare equal.
   */
  function ComputeKey(cards: seq<Card>): (key: Int32.Int)
    requires |cards| == 5
    ensures key == (if IsFlush(cards) then -(ValueProduct(Values(cards)) as int) else ValueProduct(Values(cards)))
    ensures key != 0
    ensures key < 0 <==> IsFlush(cards)
    ensures 2 * 2 * 2 * 2 * 2 <= (if key < 0 then -(key as int) else key as int) <= 41 * 41 * 41 * 41 * 41
  {
    var p0, p1, p2, p3, p4 := Prime(cards[0].value), Prime(cards[1].value), Prime(cards[2].value),
      Prime(cards[3].value), Prime(cards[4].value);
    FivePrimesFit(p0, p1, p2, p3, p4);
    FiveValuesProduct(cards);
    var product := Int32.Mul(Int32.Mul(Int32.Mul(Int32.Mul(p0, p1), p2), p3), p4);
    ChainedSuitTest(cards);
    if cards[0].suit == cards[1].suit && cards[1].suit == cards[2].suit
      && cards[2].suit == cards[3].suit && cards[3].suit == cards[4].suit
    then Int32.Mul(product, -1)
    else product
  }

  /** The constructor's chain of four neighbour comparisons is exactly the flush test. */
  lemma ChainedSuitTest(cards: seq<Card>)
    requires |cards| == 5
    ensures (cards[0].suit == cards[1].suit && cards[1].suit == cards[2].suit
      && cards[2].suit == cards[3].suit && cards[3].suit == cards[4].suit) <==> IsFlush(cards)
  {
  }

  /** Reordering the five cards does not change the key. */
  lemma KeyOrderIndependent(a: seq<Card>, b: seq<Card>)
    requires |a| == 5 && multiset(a) == multiset(b)
    ensures |b| == 5 && ComputeKey(a) == ComputeKey(b)
  {
    assert |b| == |multiset(b)| == |multiset(a)| == 5;
    ValuesPermutation(a, b);
    ValueProductPermutation(Values(a), Values(b));
    if IsFlush(a) {
      PermutationKeepsFlush(a, b);
    }
    if IsFlush(b) {
      PermutationKeepsFlush(b, a);
    }
  }

  lemma {:induction false} ValuesPermutation(a: seq<Card>, b: seq<Card>)
    requires multiset(a) == multiset(b)
    ensures multiset(Values(a)) == multiset(Values(b))
    decreases |a|
  {
    if a == [] {
      Multisets.EmptyPermutation(a, b);
    } else {
      var x := a[0];
      var i := Multisets.SplitFirst(a, b);
      var rest := b[..i] + b[i + 1..];
      ValuesPermutation(a[1..], rest);
      assert a == [x] + a[1..];
      assert Values(a) == [x.value] + Values(a[1..]);
      assert Values(b) == Values(b[..i]) + [x.value] + Values(b[i + 1..]);
      assert Values(rest) == Values(b[..i]) + Values(b[i + 1..]);
    }
  }

  lemma PermutationKeepsFlush(a: seq<Card>, b: seq<Card>)
    requires multiset(a) == multiset(b)
    requires IsFlush(a)
    ensures IsFlush(b)
  {
    forall i, j | 0 <= i < |b| && 0 <= j < |b|
      ensures b[i].suit == b[j].suit
    {
      assert b[i] in multiset(a) && b[j] in multiset(a);
    }
  }

  /** Renaming the suits by a map `f`. */
  function RenameSuits(cards: seq<Card>, f: Suit -> Suit): (r: seq<Card>)
    ensures |r| == |cards|
    ensures forall i :: 0 <= i < |cards| ==> r[i].value == cards[i].value && r[i].suit == f(cards[i].suit)
  {
    seq(|cards|, i requires 0 <= i < |cards| => Card(cards[i].value, f(cards[i].suit)))
  }

  /** Suits carry no weight beyond the flush flag: renaming them by a one-to-one map keeps the key. */
  lemma KeySuitRenaming(cards: seq<Card>, f: Suit -> Suit)
    requires |cards| == 5
    requires forall s, t :: f(s) == f(t) ==> s == t
    ensures ComputeKey(RenameSuits(cards, f)) == ComputeKey(cards)
  {
    var renamed := RenameSuits(cards, f);
    assert Values(renamed) == Values(cards);
    assert IsFlush(renamed) <==> IsFlush(cards);
  }

  /**
   * The key identifies a hand's value-multiset and flush flag, and nothing
   * more: equal keys exactly when both agree.
   */
  lemma KeyInjective(a: seq<Card>, b: seq<Card>)
    requires |a| == 5 && |b| == 5
    ensures ComputeKey(a) == ComputeKey(b)
        <==> multiset(Values(a)) == multiset(Values(b)) && IsFlush(a) == IsFlush(b)
  {
    ValueProductInjective(Values(a), Values(b));
  }
}
