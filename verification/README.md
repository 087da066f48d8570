# Standard poker hand evaluator: cards, hand keys, hands and the deck

A Dafny model of `StandardPokerHandEvaluator/Poker.cs`. It covers the core of
the evaluator:

- **Cards.** Thirteen values, each standing for a prime (`CardEnum`), and four
  suits (`SuitEnum`). A `Card` has a short text form (`"Qh"`) and a long one
  (`"Queen of Hearts"`).
- **Hands.** A `Hand` of five cards computes a key: the product of the five
  primes, in 32-bit `int` arithmetic, negated when all five cards share a suit.
  The key is looked up in a ranking table, and the `EvalHand` entry found there
  supplies `Key`, `Rank` and the description.
- **Comparisons.** `CompareTo`, the six comparison operators, `Equals` and
  `GetHashCode` all look only at `Rank`. As written, `Equals(object)` throws
  for every argument (see Findings); the model also carries the corrected
  version.
- **Deck.** A `Deck` is a stack of 52 cards. It is filled in box order
  (`InitDeck`). `Shuffle` pops every card into a list, then moves cards at
  random positions of that list back onto the stack. Cards are dealt from the
  top (`NextCard`).

Modules, one per file:

| file | module | contents |
|---|---|---|
| `wrappers.dfy` | `Wrappers` | `Option` and `Result`, used for errors and for `null` |
| `int32.dfy` | `Int32` | C# `int`: wrap-around multiplication and addition |
| `primes.dfy` | `Primes` | primality and Euclid's lemma, used for unique factorisation |
| `multisets.dfy` | `Multisets` | `List.RemoveAt`, distinctness and permutation facts |
| `cards.dfy` | `Cards` | values, suits, cards and `Card.ToString(format)`, with parsers that invert both text forms |
| `hand_key.dfy` | `HandKey` | the key computation and what the key determines |
| `hands.dfy` | `Hands` | the `Hand` constructor's lookup, `Key`, `Rank`, the comparisons and `Hand.ToString` |
| `deck.dfy` | `Decks` | `InitDeck`, `Shuffle`, `NextCard` and the `Deck` constructor |

How the model represents the source:

- **Ranking table.** `PokerHandRankingTable.EvalHands` is a parameter, a map
  from key to entry. A missing key is a `KeyNotFound` error.
- **Deck order.** A deck is a sequence whose last element is the top of the
  stack.
- **Randomness.** What `Random.Next(0, 52 - i)` returns in round `i` is the
  `i`-th element of a `rolls` parameter, and each roll must lie in its range.
- **Shuffle's structure.** The two loops of `Shuffle` are the methods
  `PopAll` and `DrawAll`. The functions `Draw` and `Shuffled` give the outcome
  as a reference definition.
- **Card-name parsers.** `ParseShortName` and `ParseLongName` are not in the
  source. They exist to state that each text form identifies its card.

## Model

| member | source | states |
|---|---|---|
| Cards.PrimesAreDistinctPrimes | StandardPokerHandEvaluator/Poker.cs:10-25 | `Cards.Prime` gives the integer behind each `CardEnum` constant; every one is a prime, and two values have the same constant exactly when they are the same value |
| Cards.CardToString | StandardPokerHandEvaluator/Poker.cs:59-143 | in both formats, the text reads back as the card (the long form is `Cards.LongName`, value name, `" of "`, suit name); the short form has two characters; the `"<Card value not set>"` fallback is never returned |
| Cards.CardToStringDefault | StandardPokerHandEvaluator/Poker.cs:54-57 | the parameterless `ToString()` is the long form |
| Cards.ShortName | StandardPokerHandEvaluator/Poker.cs:68-136 | a short name is two characters: a rank character from `23456789TJQKA`, then a suit letter from `shcd` |
| Cards.ValueOfRankChar | StandardPokerHandEvaluator/Poker.cs:72-135 | exactly the thirteen rank characters of the short names are recognised, and each reads back as the value whose branch produces it |
| Cards.SuitOfInitial | StandardPokerHandEvaluator/Poker.cs:74 | exactly the four lower-cased suit initials are recognised, and each reads back as its suit |
| Cards.ParseShortName | StandardPokerHandEvaluator/Poker.cs:68-136 | whatever the parser accepts is the short name of the card it returns |
| Cards.ParseShortNameOfShortName | StandardPokerHandEvaluator/Poker.cs:68-136 | the short name of any card reads back as that card |
| Cards.RankCharInverse | StandardPokerHandEvaluator/Poker.cs:72-135 | the rank character of each value's branch reads back as that value |
| Cards.SuitInitialInverse | StandardPokerHandEvaluator/Poker.cs:74 | the lower-cased initial of each suit name reads back as that suit |
| Cards.ShortNameInjective | StandardPokerHandEvaluator/Poker.cs:68-136 | two cards have the same short name exactly when they are the same card |
| Cards.ParseLongName | StandardPokerHandEvaluator/Poker.cs:63-66 | whatever the parser accepts is the long name of the card it returns |
| Cards.ParseLongNameOfLongName | StandardPokerHandEvaluator/Poker.cs:63-66 | `"<Value> of <Suit>"` reads back as that card |
| Cards.LongNameInjective | StandardPokerHandEvaluator/Poker.cs:63-66 | two cards have the same long name exactly when they are the same card |
| Int32.Mul | StandardPokerHandEvaluator/Poker.cs:193 | unchecked `int` multiplication: the exact product when it fits, otherwise a value in range that is congruent to it modulo 2^32 |
| Int32.Add | StandardPokerHandEvaluator/Poker.cs:380 | unchecked `int` addition: the exact sum when it fits, otherwise a value in range that is congruent to it modulo 2^32 |
| Int32.WrapInjective | StandardPokerHandEvaluator/Poker.cs:380 | two values less than 2^32 apart that wrap to the same `int` are equal |
| Primes.Euclid | StandardPokerHandEvaluator/Poker.cs:209-213 | if a prime divides another prime times x, then it divides x; this is what makes products of the card primes unique |
| HandKey.ValueProductPermutation | StandardPokerHandEvaluator/Poker.cs:193 | reordering the values does not change the product |
| HandKey.ValueProductRemove | StandardPokerHandEvaluator/Poker.cs:193 | removing one value from the sequence divides its prime out of the product |
| HandKey.ProductNotDivisible | StandardPokerHandEvaluator/Poker.cs:211-213 | the prime of a value absent from the hand does not divide the hand's product |
| HandKey.ProductDeterminesValues | StandardPokerHandEvaluator/Poker.cs:211-213 | equal products imply equal value-multisets (unique factorisation over the card primes) |
| HandKey.ValueProductInjective | StandardPokerHandEvaluator/Poker.cs:209-213 | two value sequences have equal products exactly when they hold the same values with the same multiplicities |
| HandKey.FivePrimesFit | StandardPokerHandEvaluator/Poker.cs:193 | every partial product of the left-to-right multiplication fits in `int`; the full product is between 32 and 41^5 = 115,856,201 |
| HandKey.FiveValuesProduct | StandardPokerHandEvaluator/Poker.cs:193 | the product of the five cards' primes, multiplied left to right, is the product of their values |
| HandKey.ComputeKey | StandardPokerHandEvaluator/Poker.cs:193-199 | the 32-bit computation never wraps: the key is plus or minus the product of the five primes; it is never zero; it is negative exactly for a flush; its magnitude is between 2^5 and 41^5 |
| HandKey.ChainedSuitTest | StandardPokerHandEvaluator/Poker.cs:194 | the chain of four neighbour comparisons holds exactly when all five suits are equal |
| HandKey.KeyOrderIndependent | StandardPokerHandEvaluator/Poker.cs:193-199 | passing the same five cards in any order gives the same key |
| HandKey.ValuesPermutation | StandardPokerHandEvaluator/Poker.cs:193 | a reordered hand has the same value-multiset |
| HandKey.PermutationKeepsFlush | StandardPokerHandEvaluator/Poker.cs:194 | a reordered flush is still a flush |
| HandKey.RenameSuits | StandardPokerHandEvaluator/Poker.cs:194 | renaming suits keeps each card's value and maps its suit through the renaming |
| HandKey.KeySuitRenaming | StandardPokerHandEvaluator/Poker.cs:194-199 | renaming the suits one-to-one does not change the key |
| HandKey.KeyInjective | StandardPokerHandEvaluator/Poker.cs:209-217 | two hands have the same key exactly when they have the same value-multiset and the same flush flag |
| Hands.NewHand | StandardPokerHandEvaluator/Poker.cs:184-202 | the hand keeps its five cards and gets the entry filed under plus or minus the product of their primes (minus for a flush); it fails with `KeyNotFound` exactly when that key is absent from the table |
| Hands.KeyIsComputedKey | StandardPokerHandEvaluator/Poker.cs:218-224 | in a table where every entry is filed under its own key, the `Key` property (`Hands.Key`, the key of the entry the hand holds) is the key the constructor computed |
| Hands.RankIsLookedUp | StandardPokerHandEvaluator/Poker.cs:235-241 | the `Rank` property (`Hands.Rank`) of a constructed hand is the rank of the table entry filed under the hand's computed key |
| Hands.KeyNeedsWellFormedTable | StandardPokerHandEvaluator/Poker.cs:218-224 | in a table whose entry is filed under another key, `Key` differs from the computed key |
| Hands.SameValuesSameEntry | StandardPokerHandEvaluator/Poker.cs:193-201 | two hands with the same value-multiset and flush flag get the same lookup outcome and the same entry |
| Hands.RankOrderIndependent | StandardPokerHandEvaluator/Poker.cs:184-202 | the order in which the five cards are passed changes neither the lookup outcome nor the rank |
| Hands.CompareTo | StandardPokerHandEvaluator/Poker.cs:250-253 | the result is -1, 0 or 1, and its sign is the sign of `Rank(this) - Rank(other)` |
| Hands.CompareToIsOrdering | StandardPokerHandEvaluator/Poker.cs:243-253 | `CompareTo` is reflexive, antisymmetric and transitive, and ties compare alike against every third hand |
| Hands.Equal | StandardPokerHandEvaluator/Poker.cs:265-268 | `==` holds exactly when `CompareTo` is zero |
| Hands.NotEqual | StandardPokerHandEvaluator/Poker.cs:278-281 | `!=` is the negation of `==` |
| Hands.Greater | StandardPokerHandEvaluator/Poker.cs:293-296 | `>` holds exactly when `CompareTo` is positive, that is, when `lhs` has the larger rank |
| Hands.Less | StandardPokerHandEvaluator/Poker.cs:308-311 | `<` holds exactly when `CompareTo` is negative, and `a < b` is `b > a` |
| Hands.GreaterOrEqual | StandardPokerHandEvaluator/Poker.cs:323-326 | `>=` is the negation of `<`, and is `>` or `==` |
| Hands.LessOrEqual | StandardPokerHandEvaluator/Poker.cs:338-341 | `<=` is the negation of `>`, and is `<` or `==` |
| Hands.LessOrEqualIsTotalPreorder | StandardPokerHandEvaluator/Poker.cs:298-341 | `<=` is reflexive, transitive and total; its symmetric part is `==` and its strict part is `<` |
| Hands.ComparisonsReadOnlyRank | StandardPokerHandEvaluator/Poker.cs:250-381 | replacing either hand by one of the same rank changes no result of `CompareTo`, the six operators, the corrected `Equals` or `GetHashCode` |
| Hands.Equals | StandardPokerHandEvaluator/Poker.cs:372-376 | the corrected `Equals(obj)` (see Findings): it holds exactly when `obj` is a hand and `==` holds; `null` and non-hands are unequal |
| Hands.NotEqualNullable | StandardPokerHandEvaluator/Poker.cs:278-281 | the `!=` operator on possibly-`null` operands: it returns `!=` of the ranks when both are hands and throws `NullReferenceException` when either is `null` |
| Hands.EqualsAsWritten | StandardPokerHandEvaluator/Poker.cs:372-376 | `Equals(obj)` as written, whose null test goes through the overloaded `!=`: it fails with `NullReferenceException` for every `obj` |
| Hands.EqualsAsWrittenAlwaysThrows | StandardPokerHandEvaluator/Poker.cs:372-376 | `Equals(obj)` as written throws `NullReferenceException` for every `obj`, the hand itself included, while the corrected `Equals` holds for the hand itself |
| Hands.GetHashCode | StandardPokerHandEvaluator/Poker.cs:378-381 | the hash is 1852875615 plus the rank when that sum fits in `int` |
| Hands.HashCodeMatchesEquals | StandardPokerHandEvaluator/Poker.cs:372-381 | two hands have the same hash code exactly when the corrected `Equals` holds, wrap-around included |
| Hands.HandToString | StandardPokerHandEvaluator/Poker.cs:356-370 | the short form is ten characters whose five two-character slots read back as the five cards in order; the long form opens with the first card's long name; the description form is the entry's name |
| Hands.ShortCardsParse | StandardPokerHandEvaluator/Poker.cs:360-361 | the concatenated short names of five cards read back slot by slot as those cards |
| Hands.LongCardsParse | StandardPokerHandEvaluator/Poker.cs:362-363 | the long form's text opens with the first card's long name, which reads back as that card |
| Hands.HandToStringDefault | StandardPokerHandEvaluator/Poker.cs:345-348 | the parameterless `ToString()` is the description form |
| Hands.GreaterContradictsItsDocumentation | StandardPokerHandEvaluator/Poker.cs:283-296 | for ranks 300 and 500, the operator as written says the rank-500 hand is greater, against its documentation |
| Hands.Beats | StandardPokerHandEvaluator/Poker.cs:283-296 | the documented `>`: `lhs` is greater exactly when its rank is smaller; this coincides with `<` as written and never with `>` as written |
| Hands.BeatsIsStrictOrder | StandardPokerHandEvaluator/Poker.cs:283-341 | the documented ordering is irreflexive, asymmetric and transitive, and two hands are incomparable under it exactly when `==` holds |
| Multisets.RemoveAt | StandardPokerHandEvaluator/Poker.cs:508 | `List.RemoveAt(j)` removes one occurrence of the element at `j` and nothing else; the elements before `j` stay in place and those after it move down by one |
| Decks.InitDeck | StandardPokerHandEvaluator/Poker.cs:416-476 | a new deck has 52 cards: all 13 values of each suit in the order spades, hearts, clubs, diamonds, so every card occurs exactly once, at its box position |
| Decks.NextCard | StandardPokerHandEvaluator/Poker.cs:518-521 | dealing succeeds exactly on a non-empty deck; it removes the top card and keeps the order of the rest; an empty deck is an `EmptyDeck` error |
| Decks.NextCardAfterPush | StandardPokerHandEvaluator/Poker.cs:518-521 | dealing right after pushing a card gives that card back and the deck as it was |
| Decks.NextCardKeepsDistinct | StandardPokerHandEvaluator/Poker.cs:513-521 | dealing from a deck without repeated cards leaves one card fewer, without repeats, and without the dealt card |
| Decks.Draw | StandardPokerHandEvaluator/Poker.cs:504-510 | the order the second loop pushes cards in; it pushes one card per card of the list (that each card goes exactly once is `Decks.DrawIsPermutation`) |
| Decks.DrawIsPermutation | StandardPokerHandEvaluator/Poker.cs:504-510 | the cards the second loop pushes are a permutation of the list: every card is moved exactly once |
| Decks.PopAll | StandardPokerHandEvaluator/Poker.cs:498-502 | popping all 52 cards yields the deck in reverse order, top card first |
| Decks.PopStep | StandardPokerHandEvaluator/Poker.cs:500-501 | each pop yields the next card of the reversed deck and leaves the rest of the stack in order |
| Decks.DrawAll | StandardPokerHandEvaluator/Poker.cs:504-510 | the second loop leaves on the stack exactly the cards `Draw` selects, in that order |
| Decks.DrawStep | StandardPokerHandEvaluator/Poker.cs:506-509 | one round pushes the card at the rolled position and continues with that card removed and the rest of the rolls |
| Decks.Shuffle | StandardPokerHandEvaluator/Poker.cs:481-511 | a deck without exactly 52 cards is rebuilt first; the result has 52 cards, is a permutation of the deck it started from, and is the reference outcome for the given rolls |
| Decks.RollsFor | StandardPokerHandEvaluator/Poker.cs:504-510 | for every reordering of the list, there are in-range rolls for which the second loop produces it |
| Decks.RollsForStep | StandardPokerHandEvaluator/Poker.cs:506-509 | choosing first the position of the wanted card, then rolls that order the remainder, is a valid roll sequence that produces the wanted order |
| Decks.ShuffleReachesEveryOrder | StandardPokerHandEvaluator/Poker.cs:481-511 | every permutation of the starting deck is a possible outcome of `Shuffle` |
| Decks.ReverseIsPermutation | StandardPokerHandEvaluator/Poker.cs:498-502 | popping everything into the list loses and duplicates no card |
| Decks.DistinctFullDeck | StandardPokerHandEvaluator/Poker.cs:410-415 | 52 different cards are a complete deck |
| Decks.ShuffleOfDistinctDeck | StandardPokerHandEvaluator/Poker.cs:477-480 | shuffling a deck without repeated cards yields all 52 cards, each exactly once |
| Decks.NewDeck | StandardPokerHandEvaluator/Poker.cs:398-408 | `new Deck(false)` is the box-order deck; `new Deck(true)`, which is also `new Deck()` by the default argument, is the reference outcome `Shuffled` of shuffling an empty deck with the given rolls; either way every card occurs exactly once |

## Left out

- `System.Random` is not modelled. Its outputs are the `rolls` parameter, so the model proves which outcomes are possible, not how likely each one is.
- `PokerHandRankingTable` is not part of this model: neither how it is built nor how hands are classified and ranked. The table is a parameter, and `Hands.KeyIsComputedKey` assumes only that every entry is filed under its own key.
- `Stack<Card>` and `List<Card>` appear only through the operations the source uses. Those are `Push`, `Pop`, `Count`, `Clear`, `Add`, the indexer `lst[j]` and `RemoveAt`, and they are modelled on sequences.
- C# enums can hold undeclared integers, for example `(CardEnum)4`. Only the declared constants are modelled. For an undeclared value, the short-name switch would fall through to `"<Card value not set>"`, and the key would no longer be the product of five card primes: it could be 0 (for `(CardEnum)0`, the enum's default), wrap around, or equal another hand's key (`(CardEnum)1` and `(CardEnum)4` with Three, Four, Five give 420, the key of Two, Two, Three, Four, Five).
- `null` arguments are not modelled: a `null` card, a `null` table, or `null` operands to the operators, which throw in C#. The exceptions are `Hands.NotEqualNullable` and `Hands.EqualsAsWritten`, which model the `null` that `Equals(object)` passes to `!=`; the corrected `Hands.Equals` takes `None` for `null` and for objects that are not hands.
- The `default:` branch of `Hand.ToString(format)` (line 366) is not modelled. It is unreachable for the three declared formats.
- Hands.HandToString: for the long form, only the first card's name is stated to read back. The text is the five long names joined by `", "`, and the later names are not parsed back.
- Hands.GetHashCode: its own contract gives the exact value only when no wrap-around happens. `Hands.HashCodeMatchesEquals` covers every rank.

## Findings

| source | as written | input that shows it | evidently intended | confidence | as-written member | corrected member |
|---|---|---|---|---|---|---|
| StandardPokerHandEvaluator/Poker.cs:283-296 | `operator >` returns `lhs.Rank > rhs.Rank`. The other three ordering operators (lines 298-341) likewise compare the raw ranks. | two hands with ranks 300 and 500: the code says the rank-500 hand is greater | the documentation says smaller ranks are "greater" because they are better hands, so the rank-300 hand should be greater | not executed; comments and code disagree, and which one the authors meant is unknown | Hands.GreaterContradictsItsDocumentation | Hands.Beats |
| StandardPokerHandEvaluator/Poker.cs:372-376 | `hand != null` binds to the overloaded `operator !=(Hand, Hand)` (lines 278-281), which reads `rhs.Rank` of the `null` literal | any hand `h` and any `obj`, for instance `h.Equals(h)`: `NullReferenceException` | a reference test (`(object)hand != null` or `hand is null`), so that `Equals` holds exactly when `obj` is a hand of the same rank | not executed; follows from C# overload resolution, which prefers the user-defined operator for a `Hand` operand and the `null` literal | Hands.EqualsAsWrittenAlwaysThrows | Hands.Equals |
