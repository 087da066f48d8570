/**
 * Evaluated hands: the `Hand` constructor's table lookup, the `Key` and `Rank`
 * properties, the rank-based comparisons (`CompareTo`, the six operators,
 * `Equals`, `GetHashCode`) and `Hand.ToString(format)`.
 *
 * The ranking table (`PokerHandRankingTable.EvalHands`) is taken as a given
 * map from key to entry; how it is built is not part of this model.
 */
module Hands {
  import opened Wrappers
  import opened Cards
  import opened HandKey
  import Int32

  /** A table entry (`EvalHand`): the key it was built for, its rank, its description. */
  datatype Entry = Entry(key: Int32.Int, rank: Int32.Int, name: string)

  /** The dictionary of ranked hands, indexed by hand key. */
  type Table = map<Int32.Int, Entry>

  /** Every entry is filed under its own key. */
  predicate WellFormedTable(table: Table) {
    forall k :: k in table ==> table[k].key == k
  }

  /** The five cards `mC1..mC5` and the entry found for them. */
  datatype Hand = Hand(c1: Card, c2: Card, c3: Card, c4: Card, c5: Card, entry: Entry)

  /**
   * Indexing a .NET dictionary with an absent key throws `KeyNotFoundException`;
   * reading a property of `null` throws `NullReferenceException`.
   */
  datatype HandError = KeyNotFound(key: int) | NullReference

  datatype HandFormat = ShortCardsHeld | LongCardsHeld | HandDescription

  function HandCards(h: Hand): seq<Card> {
    [h.c1, h.c2, h.c3, h.c4, h.c5]
  }

  /**
   * `new Hand(C1, C2, C3, C4, C5, EvalTable)`: compute the key and look it up.
   * The entry is the one filed under the product of the primes, negated for a
   * flush; an absent key is an error, never a default entry.
   */
  function NewHand(c1: Card, c2: Card, c3: Card, c4: Card, c5: Card, table: Table): (r: Result<Hand, HandError>)
    ensures
      var cards := [c1, c2, c3, c4, c5];
      var key := ComputeKey(cards);
      && key as int == (if IsFlush(cards) then -(ValueProduct(Values(cards)) as int) else ValueProduct(Values(cards)) as int)
      && (r.Success? <==> key in table)
      && (r.Success? ==> HandCards(r.value) == cards && r.value.entry == table[key])
      && (r.Failure? ==> r.error == KeyNotFound(key))
  {
    var key := ComputeKey([c1, c2, c3, c4, c5]);
    if key in table then Success(Hand(c1, c2, c3, c4, c5, table[key])) else Failure(KeyNotFound(key))
  }

  /** The `Key` property: the key stored in the entry. */
  function Key(h: Hand): Int32.Int {
    h.entry.key
  }

  /** The `Rank` property: lower is better. */
  function Rank(h: Hand): Int32.Int {
    h.entry.rank
  }

  /** In a well-formed table, `Key` returns the key the constructor computed. */
  lemma KeyIsComputedKey(c1: Card, c2: Card, c3: Card, c4: Card, c5: Card, table: Table)
    requires WellFormedTable(table)
    requires NewHand(c1, c2, c3, c4, c5, table).Success?
    ensures Key(NewHand(c1, c2, c3, c4, c5, table).value) == ComputeKey([c1, c2, c3, c4, c5])
  {
  }

  /** `Rank` returns the rank of the table entry filed under the computed key. */
  lemma RankIsLookedUp(c1: Card, c2: Card, c3: Card, c4: Card, c5: Card, table: Table)
    requires NewHand(c1, c2, c3, c4, c5, table).Success?
    ensures ComputeKey([c1, c2, c3, c4, c5]) in table
    ensures Rank(NewHand(c1, c2, c3, c4, c5, table).value) == table[ComputeKey([c1, c2, c3, c4, c5])].rank
  {
  }

  /**
   * In a table whose entry is filed under a different key, `Key` does not
   * return the computed key: the well-formedness requirement is needed.
   */
  lemma KeyNeedsWellFormedTable()
    ensures
      var two := Card(Two, Spades);
      var table: Table := map[-32 := Entry(32, 1, "")];
      && NewHand(two, two, two, two, two, table).Success?
      && Key(NewHand(two, two, two, two, two, table).value) != ComputeKey([two, two, two, two, two])
  {
    var two := Card(Two, Spades);
    var cards := [two, two, two, two, two];
    assert IsFlush(cards);
    assert Values(cards) == [Two, Two, Two, Two, Two];
    FiveValuesProduct(cards);
  }

  /**
   * Evaluation sees only the value-multiset and the flush flag: two hands that
   * agree on both get the same lookup outcome and the same entry.
   */
  lemma SameValuesSameEntry(a: seq<Card>, b: seq<Card>, table: Table)
    requires |a| == 5 && |b| == 5
    requires multiset(Values(a)) == multiset(Values(b)) && IsFlush(a) == IsFlush(b)
    ensures NewHand(a[0], a[1], a[2], a[3], a[4], table).Success?
        <==> NewHand(b[0], b[1], b[2], b[3], b[4], table).Success?
    ensures NewHand(a[0], a[1], a[2], a[3], a[4], table).Success? ==>
      NewHand(a[0], a[1], a[2], a[3], a[4], table).value.entry
        == NewHand(b[0], b[1], b[2], b[3], b[4], table).value.entry
  {
    assert [a[0], a[1], a[2], a[3], a[4]] == a;
    assert [b[0], b[1], b[2], b[3], b[4]] == b;
    KeyInjective(a, b);
  }

  /** The order in which the five cards are passed does not change the rank. */
  lemma RankOrderIndependent(a: seq<Card>, b: seq<Card>, table: Table)
    requires |a| == 5 && multiset(a) == multiset(b)
    ensures |b| == 5
    ensures NewHand(a[0], a[1], a[2], a[3], a[4], table).Success?
        <==> NewHand(b[0], b[1], b[2], b[3], b[4], table).Success?
    ensures NewHand(a[0], a[1], a[2], a[3], a[4], table).Success? ==>
      Rank(NewHand(a[0], a[1], a[2], a[3], a[4], table).value)
        == Rank(NewHand(b[0], b[1], b[2], b[3], b[4], table).value)
  {
    assert |b| == |multiset(b)| == |multiset(a)| == 5;
    ValuesPermutation(a, b);
    if IsFlush(a) {
      PermutationKeepsFlush(a, b);
    }
    if IsFlush(b) {
      PermutationKeepsFlush(b, a);
    }
    SameValuesSameEntry(a, b, table);
  }

  /** `int.CompareTo`: -1, 0 or 1. */
  function CompareInts(x: int, y: int): int {
    if x < y then -1 else if x == y then 0 else 1
  }

  /** `IComparable<Hand>.CompareTo`: the sign of the rank comparison. */
  function CompareTo(h: Hand, other: Hand): (r: int)
    ensures -1 <= r <= 1
    ensures r < 0 <==> Rank(h) < Rank(other)
    ensures r == 0 <==> Rank(h) == Rank(other)
    ensures r > 0 <==> Rank(h) > Rank(other)
  {
    CompareInts(Rank(h), Rank(other))
  }

  /** `CompareTo` is antisymmetric and transitive: a consistent ordering for sorting. */
  lemma CompareToIsOrdering(a: Hand, b: Hand, c: Hand)
    ensures CompareTo(a, b) == -CompareTo(b, a)
    ensures CompareTo(a, a) == 0
    ensures CompareTo(a, b) <= 0 && CompareTo(b, c) <= 0 ==> CompareTo(a, c) <= 0
    ensures CompareTo(a, b) == 0 ==> CompareTo(a, c) == CompareTo(b, c)
  {
  }

  /** `operator ==`. */
  function Equal(lhs: Hand, rhs: Hand): (r: bool)
    ensures r <==> CompareTo(lhs, rhs) == 0
  {
    Rank(lhs) == Rank(rhs)
  }

  /** `operator !=`. */
  function NotEqual(lhs: Hand, rhs: Hand): (r: bool)
    ensures r <==> !Equal(lhs, rhs)
  {
    Rank(lhs) != Rank(rhs)
  }

  /** `operator >`: compares the raw ranks, so it holds when `lhs` is the weaker hand. */
  function Greater(lhs: Hand, rhs: Hand): (r: bool)
    ensures r <==> CompareTo(lhs, rhs) > 0
  {
    Rank(lhs) > Rank(rhs)
  }

  /** `operator <`. */
  function Less(lhs: Hand, rhs: Hand): (r: bool)
    ensures r <==> CompareTo(lhs, rhs) < 0
    ensures r <==> Greater(rhs, lhs)
  {
    Rank(lhs) < Rank(rhs)
  }

  /** `operator >=`. */
  function GreaterOrEqual(lhs: Hand, rhs: Hand): (r: bool)
    ensures r <==> !Less(lhs, rhs)
    ensures r <==> Greater(lhs, rhs) || Equal(lhs, rhs)
  {
    Rank(lhs) >= Rank(rhs)
  }

  /** `operator <=`. */
  function LessOrEqual(lhs: Hand, rhs: Hand): (r: bool)
    ensures r <==> !Greater(lhs, rhs)
    ensures r <==> Less(lhs, rhs) || Equal(lhs, rhs)
  {
    Rank(lhs) <= Rank(rhs)
  }

  /** `<=` is a total preorder whose symmetric part is `==`; `<` is its strict part. */
  lemma LessOrEqualIsTotalPreorder(a: Hand, b: Hand, c: Hand)
    ensures LessOrEqual(a, a)
    ensures LessOrEqual(a, b) && LessOrEqual(b, c) ==> LessOrEqual(a, c)
    ensures LessOrEqual(a, b) || LessOrEqual(b, a)
    ensures Equal(a, b) <==> LessOrEqual(a, b) && LessOrEqual(b, a)
    ensures Less(a, b) <==> LessOrEqual(a, b) && !LessOrEqual(b, a)
  {
  }

  /**
   * The comparisons see a hand only through its rank: replacing either hand by
   * one of the same rank changes no comparison, no equality and no hash code.
   */
  lemma ComparisonsReadOnlyRank(a: Hand, a2: Hand, b: Hand, b2: Hand)
    requires Rank(a) == Rank(a2) && Rank(b) == Rank(b2)
    ensures CompareTo(a, b) == CompareTo(a2, b2)
    ensures Equal(a, b) == Equal(a2, b2) && NotEqual(a, b) == NotEqual(a2, b2)
    ensures Greater(a, b) == Greater(a2, b2) && Less(a, b) == Less(a2, b2)
    ensures GreaterOrEqual(a, b) == GreaterOrEqual(a2, b2) && LessOrEqual(a, b) == LessOrEqual(a2, b2)
    ensures Equals(a, Some(b)) == Equals(a2, Some(b2))
    ensures GetHashCode(a) == GetHashCode(a2)
  {
  }

  /**
   * `Equals(object)` as evidently intended: `obj` is `None` for `null` or an
   * object that is not a `Hand`, and the null test compares references. The
   * code as written is `EqualsAsWritten` below.
   */
  function Equals(h: Hand, obj: Option<Hand>): (r: bool)
    ensures r <==> obj.Some? && Equal(h, obj.value)
  {
    match obj
    case None => false
    case Some(other) => Rank(h) == Rank(other)
  }

  /**
   * The `!=` operator on operands that may be `null` (`None`). It reads the
   * `Rank` of both operands, so `null` on either side throws.
   */
  function NotEqualNullable(lhs: Option<Hand>, rhs: Option<Hand>): (r: Result<bool, HandError>)
    ensures r.Success? <==> lhs.Some? && rhs.Some?
    ensures r.Success? ==> r.value == NotEqual(lhs.value, rhs.value)
    ensures r.Failure? ==> r.error == NullReference
  {
    match (lhs, rhs)
    case (Some(a), Some(b)) => Success(Rank(a) != Rank(b))
    case _ => Failure(NullReference)
  }

  /**
   * `Equals(object)` as written. The test `hand != null` has a `Hand` on the
   * left, so C# binds it to the overloaded `!=` rather than to a reference
   * comparison, and that operator dereferences the `null` on its right.
   * It never returns a result.
   */
  function EqualsAsWritten(h: Hand, obj: Option<Hand>): (r: Result<bool, HandError>)
    ensures r == Failure(NullReference)
  {
    match NotEqualNullable(obj, None)
    case Failure(e) => Failure(e)
    case Success(notNull) =>
      Success(notNull && match obj case Some(hand) => Rank(h) == Rank(hand) case None => false)
  }

  /**
   * `Equals(object)` as written throws for every argument, the hand itself
   * included, where the corrected `Equals` above holds.
   */
  lemma EqualsAsWrittenAlwaysThrows(h: Hand, obj: Option<Hand>)
    ensures EqualsAsWritten(h, obj) == Failure(NullReference)
    ensures Equals(h, Some(h)) && EqualsAsWritten(h, Some(h)).Failure?
  {
  }

  const HashSeed: int := 1852875615

  /** `GetHashCode`: a constant plus the rank, with 32-bit wrap-around. */
  function GetHashCode(h: Hand): (r: Int32.Int)
    ensures Rank(h) <= Int32.Max - HashSeed ==> r == HashSeed + Rank(h)
  {
    Int32.Add(HashSeed, Rank(h))
  }

  /** Hash codes agree exactly when `Equals` holds, wrap-around included. */
  lemma HashCodeMatchesEquals(a: Hand, b: Hand)
    ensures GetHashCode(a) == GetHashCode(b) <==> Equals(a, Some(b))
  {
    if GetHashCode(a) == GetHashCode(b) {
      Int32.WrapInjective(HashSeed + Rank(a), HashSeed + Rank(b));
    }
  }

  /** `Hand.ToString(format)`. */
  function HandToString(h: Hand, format: HandFormat): (r: string)
    ensures format == ShortCardsHeld ==> ShortCardsReadBack(h, r)
    ensures format == LongCardsHeld ==>
      |LongName(h.c1)| <= |r| && ParseLongName(r[..|LongName(h.c1)|]) == Some(h.c1)
    ensures format == HandDescription ==> r == h.entry.name
  {
    match format
    case ShortCardsHeld =>
      var s := ShortName(h.c1) + ShortName(h.c2) + ShortName(h.c3) + ShortName(h.c4) + ShortName(h.c5);
      ShortCardsParse(h, s);
      s
    case LongCardsHeld =>
      var others := ", " + LongName(h.c2) + ", " + LongName(h.c3) + ", " + LongName(h.c4) + ", " + LongName(h.c5);
      LongCardsParse(h.c1, others);
      LongName(h.c1) + others
    case HandDescription => h.entry.name
  }

  /** Each two-character slot of the text reads back as the card in that position. */
  predicate ShortCardsReadBack(h: Hand, s: string) {
    && |s| == 10
    && ParseShortName(s[0..2]) == Some(h.c1)
    && ParseShortName(s[2..4]) == Some(h.c2)
    && ParseShortName(s[4..6]) == Some(h.c3)
    && ParseShortName(s[6..8]) == Some(h.c4)
    && ParseShortName(s[8..10]) == Some(h.c5)
  }

  lemma ShortCardsParse(h: Hand, s: string)
    requires s == ShortName(h.c1) + ShortName(h.c2) + ShortName(h.c3) + ShortName(h.c4) + ShortName(h.c5)
    ensures ShortCardsReadBack(h, s)
  {
    assert s[0..2] == ShortName(h.c1);
    assert s[2..4] == ShortName(h.c2);
    assert s[4..6] == ShortName(h.c3);
    assert s[6..8] == ShortName(h.c4);
    assert s[8..10] == ShortName(h.c5);
    ParseShortNameOfShortName(h.c1);
    ParseShortNameOfShortName(h.c2);
    ParseShortNameOfShortName(h.c3);
    ParseShortNameOfShortName(h.c4);
    ParseShortNameOfShortName(h.c5);
  }

  /** The text of the long form opens with the first card's name, which reads back as that card. */
  lemma LongCardsParse(c: Card, rest: string)
    ensures |LongName(c)| <= |LongName(c) + rest|
    ensures ParseLongName((LongName(c) + rest)[..|LongName(c)|]) == Some(c)
  {
    assert (LongName(c) + rest)[..|LongName(c)|] == LongName(c);
    ParseLongNameOfLongName(c);
  }

  /** The parameterless `ToString()` gives the entry's description. */
  function HandToStringDefault(h: Hand): (r: string)
    ensures r == HandToString(h, HandDescription)
  {
    h.entry.name
  }

  /**
   * The documentation of `operator >` says that smaller ranks are "greater"
   * (a rank of 300 is greater than a rank of 500); the operator as written
   * says the opposite for exactly such hands.
   */
  lemma GreaterContradictsItsDocumentation()
    ensures
      var strong := Hand(Card(Ace, Spades), Card(Ace, Hearts), Card(Ace, Clubs), Card(Ace, Diamonds),
        Card(King, Spades), Entry(-1, 300, ""));
      var weak := Hand(Card(Two, Spades), Card(Three, Hearts), Card(Four, Clubs), Card(Five, Diamonds),
        Card(Seven, Spades), Entry(-2, 500, ""));
      Rank(strong) < Rank(weak) && !Greater(strong, weak) && Greater(weak, strong)
  {
  }

  /**
   * The ordering the operator documentation describes: `lhs` is greater than
   * `rhs` when it has the smaller rank, that is, when it is the better hand.
   */
  function Beats(lhs: Hand, rhs: Hand): (r: bool)
    ensures r <==> Rank(lhs) < Rank(rhs)
    ensures r <==> Less(lhs, rhs) && !Greater(lhs, rhs)
  {
    CompareTo(rhs, lhs) > 0
  }

  /** `Beats` is a strict weak order: irreflexive, transitive, and incomparability is `==`. */
  lemma BeatsIsStrictOrder(a: Hand, b: Hand, c: Hand)
    ensures !Beats(a, a)
    ensures Beats(a, b) && Beats(b, c) ==> Beats(a, c)
    ensures Beats(a, b) ==> !Beats(b, a)
    ensures !Beats(a, b) && !Beats(b, a) <==> Equal(a, b)
  {
  }
}
