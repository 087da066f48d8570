/**
 * Cards: the thirteen values with their key primes, the four suits, and the
 * two textual forms of a card (`Card.ToString(format)` in Poker.cs).
 */
module Cards {
  import opened Wrappers
  import Primes

  /** `CardEnum`: each value stands for the prime used to build hand keys. */
  datatype CardValue = Two | Three | Four | Five | Six | Seven | Eight | Nine | Ten | Jack | Queen | King | Ace

  /** `SuitEnum`. */
  datatype Suit = Spades | Hearts | Clubs | Diamonds

  /** An immutable (value, suit) pair. */
  datatype Card = Card(value: CardValue, suit: Suit)

  /** `CardToStringFormatEnum`. */
  datatype CardFormat = ShortCardName | LongCardName

  /** The integer behind each `CardEnum` constant. */
  function Prime(v: CardValue): (p: nat)
    ensures 2 <= p <= 41
  {
    match v
    case Two => 2
    case Three => 3
    case Four => 5
    case Five => 7
    case Six => 11
    case Seven => 13
    case Eight => 17
    case Nine => 19
    case Ten => 23
    case Jack => 29
    case Queen => 31
    case King => 37
    case Ace => 41
  }

  /** The thirteen constants are primes, and no two values share one. */
  lemma PrimesAreDistinctPrimes(v: CardValue, w: CardValue)
    ensures Primes.IsPrime(Prime(v))
    ensures Prime(v) == Prime(w) <==> v == w
  {
    // Each primality check is evaluated on literals, a few divisors per step.
    assert Primes.NoDivisorFrom(Prime(v), 2) by {
      match v
      case Two =>
      case Three =>
      case Four =>
      case Five =>
      case Six => assert Primes.NoDivisorFrom(11, 6);
      case Seven => assert Primes.NoDivisorFrom(13, 8);
      case Eight => assert Primes.NoDivisorFrom(17, 12); assert Primes.NoDivisorFrom(17, 7);
      case Nine => assert Primes.NoDivisorFrom(19, 14); assert Primes.NoDivisorFrom(19, 9);
        assert Primes.NoDivisorFrom(19, 5);
      case Ten => assert Primes.NoDivisorFrom(23, 18); assert Primes.NoDivisorFrom(23, 13);
        assert Primes.NoDivisorFrom(23, 9); assert Primes.NoDivisorFrom(23, 5);
      case Jack => assert Primes.NoDivisorFrom(29, 25); assert Primes.NoDivisorFrom(29, 21);
        assert Primes.NoDivisorFrom(29, 17); assert Primes.NoDivisorFrom(29, 13);
        assert Primes.NoDivisorFrom(29, 9); assert Primes.NoDivisorFrom(29, 5);
      case Queen => assert Primes.NoDivisorFrom(31, 27); assert Primes.NoDivisorFrom(31, 23);
        assert Primes.NoDivisorFrom(31, 19); assert Primes.NoDivisorFrom(31, 15);
        assert Primes.NoDivisorFrom(31, 11); assert Primes.NoDivisorFrom(31, 7);
        assert Primes.NoDivisorFrom(31, 3);
      case King => assert Primes.NoDivisorFrom(37, 33); assert Primes.NoDivisorFrom(37, 29);
        assert Primes.NoDivisorFrom(37, 25); assert Primes.NoDivisorFrom(37, 21);
        assert Primes.NoDivisorFrom(37, 17); assert Primes.NoDivisorFrom(37, 13);
        assert Primes.NoDivisorFrom(37, 9); assert Primes.NoDivisorFrom(37, 5);
      case Ace => assert Primes.NoDivisorFrom(41, 37); assert Primes.NoDivisorFrom(41, 33);
        assert Primes.NoDivisorFrom(41, 29); assert Primes.NoDivisorFrom(41, 25);
        assert Primes.NoDivisorFrom(41, 21); assert Primes.NoDivisorFrom(41, 17);
        assert Primes.NoDivisorFrom(41, 13); assert Primes.NoDivisorFrom(41, 9);
        assert Primes.NoDivisorFrom(41, 5);
    }
    Primes.NoDivisorFromSound(Prime(v), 2);
  }

  /** Position of a value in `Two..Ace` order and of a suit in declaration order. */
  function ValueIndex(v: CardValue): (i: nat)
    ensures i < 13
  {
    match v
    case Two => 0
    case Three => 1
    case Four => 2
    case Five => 3
    case Six => 4
    case Seven => 5
    case Eight => 6
    case Nine => 7
    case Ten => 8
    case Jack => 9
    case Queen => 10
    case King => 11
    case Ace => 12
  }

  function SuitIndex(s: Suit): (i: nat)
    ensures i < 4
  {
    match s
    case Spades => 0
    case Hearts => 1
    case Clubs => 2
    case Diamonds => 3
  }

  const AllValues: seq<CardValue> := [Two, Three, Four, Five, Six, Seven, Eight, Nine, Ten, Jack, Queen, King, Ace]
  const AllSuits: seq<Suit> := [Spades, Hearts, Clubs, Diamonds]

  lemma IndexInverses(v: CardValue, s: Suit)
    ensures |AllValues| == 13 && AllValues[ValueIndex(v)] == v
    ensures |AllSuits| == 4 && AllSuits[SuitIndex(s)] == s
    ensures forall i :: 0 <= i < 13 ==> ValueIndex(AllValues[i]) == i
    ensures forall i :: 0 <= i < 4 ==> SuitIndex(AllSuits[i]) == i
  {
  }

  /** The name .NET gives an enum constant: its identifier. */
  function ValueName(v: CardValue): string {
    match v
    case Two => "Two"
    case Three => "Three"
    case Four => "Four"
    case Five => "Five"
    case Six => "Six"
    case Seven => "Seven"
    case Eight => "Eight"
    case Nine => "Nine"
    case Ten => "Ten"
    case Jack => "Jack"
    case Queen => "Queen"
    case King => "King"
    case Ace => "Ace"
  }

  function SuitName(s: Suit): string {
    match s
    case Spades => "Spades"
    case Hearts => "Hearts"
    case Clubs => "Clubs"
    case Diamonds => "Diamonds"
  }

  /** ASCII lower-casing, which is what `ToLower` does to the suit initials. */
  function ToLower(c: char): char {
    if 'A' <= c <= 'Z' then (c as int - 'A' as int + 'a' as int) as char else c
  }

  /** The leading character of the short name of each value. */
  function RankChar(v: CardValue): char {
    match v
    case Two => '2'
    case Three => '3'
    case Four => '4'
    case Five => '5'
    case Six => '6'
    case Seven => '7'
    case Eight => '8'
    case Nine => '9'
    case Ten => 'T'
    case Jack => 'J'
    case Queen => 'Q'
    case King => 'K'
    case Ace => 'A'
  }

  /** The trailing character: the suit's name, first letter, lower-cased. */
  function SuitInitial(s: Suit): char {
    ToLower(SuitName(s)[0])
  }

  /** `ToString(ShortCardName)`: a rank character followed by a suit letter. */
  function ShortName(c: Card): (r: string)
    ensures |r| == 2
    ensures r[0] in "23456789TJQKA"
    ensures r[1] in "shcd"
  {
    [RankChar(c.value)] + [SuitInitial(c.suit)]
  }

  /** `ToString(LongCardName)`: e.g. "Queen of Hearts". */
  function LongName(c: Card): string {
    ValueName(c.value) + " of " + SuitName(c.suit)
  }

  /**
   * `Card.ToString(format)`. Every value and format has its own branch, so the
   * "<Card value not set>" fallback after the switch is never returned.
   */
  function CardToString(c: Card, format: CardFormat): (r: string)
    ensures r != "<Card value not set>"
    ensures format == ShortCardName ==> |r| == 2 && ParseShortName(r) == Some(c)
    ensures format == LongCardName ==> ParseLongName(r) == Some(c)
  {
    ParseShortNameOfShortName(c);
    ParseLongNameOfLongName(c);
    match format
    case LongCardName => LongName(c)
    case ShortCardName => ShortName(c)
  }

  /** The parameterless `ToString()` uses the long form. */
  function CardToStringDefault(c: Card): (r: string)
    ensures r == CardToString(c, LongCardName)
  {
    LongName(c)
  }

  /** The value a short name's first character stands for; the inverse of `RankChar`. */
  function ValueOfRankChar(ch: char): (r: Option<CardValue>)
    ensures r.Some? <==> ch in "23456789TJQKA"
    ensures r.Some? ==> RankChar(r.value) == ch
  {
    match ch
    case '2' => Some(Two)
    case '3' => Some(Three)
    case '4' => Some(Four)
    case '5' => Some(Five)
    case '6' => Some(Six)
    case '7' => Some(Seven)
    case '8' => Some(Eight)
    case '9' => Some(Nine)
    case 'T' => Some(Ten)
    case 'J' => Some(Jack)
    case 'Q' => Some(Queen)
    case 'K' => Some(King)
    case 'A' => Some(Ace)
    case _ => None
  }

  /** The suit a short name's second character stands for; the inverse of `SuitInitial`. */
  function SuitOfInitial(ch: char): (r: Option<Suit>)
    ensures r.Some? <==> ch in "shcd"
    ensures r.Some? ==> SuitInitial(r.value) == ch
  {
    match ch
    case 's' => Some(Spades)
    case 'h' => Some(Hearts)
    case 'c' => Some(Clubs)
    case 'd' => Some(Diamonds)
    case _ => None
  }

  /** Reads a short card name back; the inverse of `ShortName`. */
  function ParseShortName(s: string): (r: Option<Card>)
    ensures r.Some? ==> ShortName(r.value) == s
  {
    if |s| != 2 then None
    else match (ValueOfRankChar(s[0]), SuitOfInitial(s[1]))
      case (Some(v), Some(u)) => Some(Card(v, u))
      case _ => None
  }

  lemma ParseShortNameOfShortName(c: Card)
    ensures ParseShortName(ShortName(c)) == Some(c)
  {
    var s := ShortName(c);
    assert s[0] == RankChar(c.value) && s[1] == SuitInitial(c.suit);
    RankCharInverse(c.value);
    SuitInitialInverse(c.suit);
  }

  lemma RankCharInverse(v: CardValue)
    ensures ValueOfRankChar(RankChar(v)) == Some(v)
  {
  }

  lemma SuitInitialInverse(u: Suit)
    ensures SuitOfInitial(SuitInitial(u)) == Some(u)
  {
  }

  /** Short names tell the 52 cards apart. */
  lemma ShortNameInjective(a: Card, b: Card)
    ensures ShortName(a) == ShortName(b) <==> a == b
  {
    ParseShortNameOfShortName(a);
    ParseShortNameOfShortName(b);
  }

  /** The first two letters of a value's name already identify the value. */
  function ValueOfNamePrefix(a: char, b: char): Option<CardValue> {
    match (a, b)
    case ('T', 'w') => Some(Two)
    case ('T', 'h') => Some(Three)
    case ('F', 'o') => Some(Four)
    case ('F', 'i') => Some(Five)
    case ('S', 'i') => Some(Six)
    case ('S', 'e') => Some(Seven)
    case ('E', 'i') => Some(Eight)
    case ('N', 'i') => Some(Nine)
    case ('T', 'e') => Some(Ten)
    case ('J', 'a') => Some(Jack)
    case ('Q', 'u') => Some(Queen)
    case ('K', 'i') => Some(King)
    case ('A', 'c') => Some(Ace)
    case _ => None
  }

  /** Reads a long card name back; the inverse of `LongName`. */
  function ParseLongName(s: string): (r: Option<Card>)
    ensures r.Some? ==> LongName(r.value) == s
  {
    if |s| < 2 then None
    else match ValueOfNamePrefix(s[0], s[1])
      case None => None
      case Some(v) =>
        var n := |ValueName(v)| + 4;
        if |s| <= n then None
        else match SuitOfInitial(ToLower(s[n]))
          case None => None
          case Some(u) => if s == LongName(Card(v, u)) then Some(Card(v, u)) else None
  }

  lemma ParseLongNameOfLongName(c: Card)
    ensures ParseLongName(LongName(c)) == Some(c)
  {
    var s := LongName(c);
    var name := ValueName(c.value);
    assert s[0] == name[0] && s[1] == name[1];
    assert ValueOfNamePrefix(name[0], name[1]) == Some(c.value);
    assert s[|ValueName(c.value)| + 4] == SuitName(c.suit)[0];
    assert SuitOfInitial(ToLower(SuitName(c.suit)[0])) == Some(c.suit);
  }

  /** Long names tell the 52 cards apart. */
  lemma LongNameInjective(a: Card, b: Card)
    ensures LongName(a) == LongName(b) <==> a == b
  {
    ParseLongNameOfLongName(a);
    ParseLongNameOfLongName(b);
  }
}
