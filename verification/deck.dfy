/**
 * The `Deck` class: a stack of cards that is filled in a fixed order
 * (`InitDeck`), shuffled by drawing cards at random positions (`Shuffle`),
 * and dealt from the top (`NextCard`).
 *
 * A deck is a sequence whose LAST element is the top of the stack: `Push`
 * appends and `Pop` removes the last element. The random source is a
 * parameter: `rolls[i]` is what `r.Next(0, 52 - i)` returned on round `i`.
 */
module Decks {
  import opened Wrappers
  import opened Cards
  import opened Multisets

  type Deck = seq<Card>

  const DeckSize: nat := 52

  /** `Stack.Pop` on an empty stack throws `InvalidOperationException`. */
  datatype DeckError = EmptyDeck

  /** Where each card sits in a new deck: suit by suit, values `Two..Ace` within a suit. */
  function CardIndex(c: Card): (i: nat)
    ensures i < DeckSize
  {
    13 * SuitIndex(c.suit) + ValueIndex(c.value)
  }

  /** `InitDeck`: the 52 cards pushed 2s..As, 2h..Ah, 2c..Ac, 2d..Ad (ace of diamonds on top). */
  function InitDeck(): (deck: Deck)
    ensures |deck| == DeckSize
    ensures forall i :: 0 <= i < |deck| ==> CardIndex(deck[i]) == i
    ensures forall c: Card :: deck[CardIndex(c)] == c
    ensures Distinct(deck)
  {
    IndexInverses(Two, Spades);
    seq(52, i requires 0 <= i < 52 => Card(AllValues[i % 13], AllSuits[i / 13]))
  }

  /** `Push`. */
  function Push(deck: Deck, c: Card): (r: Deck)
    ensures |r| == |deck| + 1
  {
    deck + [c]
  }

  /**
   * `NextCard` (`Pop`): the top card and the rest of the deck, which keeps its
   * order; popping an empty deck is an error.
   */
  function NextCard(deck: Deck): (r: Result<(Card, Deck), DeckError>)
    ensures r.Success? <==> |deck| > 0
    ensures r.Success? ==> Push(r.value.1, r.value.0) == deck
    ensures r.Failure? ==> r.error == EmptyDeck
  {
    if |deck| == 0 then Failure(EmptyDeck)
    else Success((deck[|deck| - 1], deck[..|deck| - 1]))
  }

  /** Pushing a card and dealing gives that card back and the deck as it was. */
  lemma NextCardAfterPush(deck: Deck, c: Card)
    ensures NextCard(Push(deck, c)) == Success((c, deck))
  {
    assert (deck + [c])[..|deck|] == deck;
  }

  /** Dealing from a deck without repeated cards leaves a deck without the dealt card. */
  lemma NextCardKeepsDistinct(deck: Deck)
    requires Distinct(deck) && |deck| > 0
    ensures Distinct(NextCard(deck).value.1)
    ensures NextCard(deck).value.0 !in NextCard(deck).value.1
    ensures |NextCard(deck).value.1| == |deck| - 1
  {
  }

  /** `Random.Next(0, n - i)` on round `i` of `n`. */
  predicate ValidRolls(n: nat, rolls: seq<int>) {
    |rolls| == n && forall i :: 0 <= i < n ==> 0 <= rolls[i] < n - i
  }

  /**
   * The order the second loop of `Shuffle` pushes cards in: on each round the
   * card at position `rolls[i]` of what is left of `list`.
   */
  function Draw(list: seq<Card>, rolls: seq<int>): (r: Deck)
    requires ValidRolls(|list|, rolls)
    ensures |r| == |list|
    decreases |list|
  {
    if |list| == 0 then []
    else
      var j := rolls[0];
      ValidRollsTail(|list|, rolls);
      [list[j]] + Draw(RemoveAt(list, j), rolls[1..])
  }

  /** `Draw` moves every card of the list exactly once. */
  lemma {:induction false} DrawIsPermutation(list: seq<Card>, rolls: seq<int>)
    requires ValidRolls(|list|, rolls)
    ensures multiset(Draw(list, rolls)) == multiset(list)
    decreases |list|
  {
    if |list| > 0 {
      var j := rolls[0];
      ValidRollsTail(|list|, rolls);
      DrawIsPermutation(RemoveAt(list, j), rolls[1..]);
      assert list[j] in multiset(list);
    }
  }

  lemma ValidRollsTail(n: nat, rolls: seq<int>)
    requires n > 0 && ValidRolls(n, rolls)
    ensures ValidRolls(n - 1, rolls[1..])
  {
    forall i | 0 <= i < n - 1
      ensures 0 <= rolls[1..][i] < n - 1 - i
    {
      assert rolls[1..][i] == rolls[i + 1];
    }
  }

  function Reverse(s: Deck): (r: seq<Card>)
    ensures |r| == |s|
  {
    seq(|s|, i requires 0 <= i < |s| => s[|s| - 1 - i])
  }

  /** The deck `Shuffle` works on: itself if it holds 52 cards, a new deck otherwise. */
  function ShuffleStart(deck: Deck): (r: Deck)
    ensures |r| == DeckSize
  {
    if |deck| != DeckSize then InitDeck() else deck
  }

  /** What `Shuffle` leaves for a given sequence of rolls. */
  function Shuffled(deck: Deck, rolls: seq<int>): Deck
    requires ValidRolls(DeckSize, rolls)
  {
    Draw(Reverse(ShuffleStart(deck)), rolls)
  }

  /** The first loop of `Shuffle`: pop all 52 cards into a list, top card first. */
  method PopAll(start: Deck) returns (list: seq<Card>)
    requires |start| == DeckSize
    ensures list == Reverse(start)
  {
    var stack := start;
    list := [];
    var i := 0;
    while i < 52
      invariant 0 <= i <= 52
      invariant |stack| + |list| == 52
      invariant stack == start[..52 - i]
      invariant list == Reverse(start)[..i]
    {
      var popped := NextCard(stack);
      PopStep(start, i);
      list := list + [popped.value.0];
      stack := popped.value.1;
      i := i + 1;
    }
  }

  /** The second loop of `Shuffle`: 52 times, move the card at a random position of the list onto the stack. */
  method DrawAll(drawn: seq<Card>, rolls: seq<int>) returns (stack: Deck)
    requires ValidRolls(|drawn|, rolls)
    ensures stack == Draw(drawn, rolls)
  {
    var list := drawn;
    var left := rolls;
    stack := [];
    while |list| > 0
      invariant |stack| + |list| == |drawn|
      invariant ValidRolls(|list|, left)
      invariant stack + Draw(list, left) == Draw(drawn, rolls)
      decreases |list|
    {
      var j := left[0];
      DrawStep(stack, list, left);
      var c := list[j];
      list := RemoveAt(list, j);
      left := left[1..];
      stack := Push(stack, c);
    }
  }

  /**
   * `Shuffle`: rebuild unless 52 cards are present, pop all 52 into a list,
   * then 52 times remove the card at a random position of the list and push it.
   */
  method Shuffle(deck: Deck, rolls: seq<int>) returns (shuffled: Deck)
    requires ValidRolls(DeckSize, rolls)
    ensures |shuffled| == DeckSize
    ensures multiset(shuffled) == multiset(ShuffleStart(deck))
    ensures shuffled == Shuffled(deck, rolls)
  {
    var stack := deck;
    if |stack| != 52 {
      stack := InitDeck();
    }
    var list := PopAll(stack);
    shuffled := DrawAll(list, rolls);
    ReverseIsPermutation(stack);
    DrawIsPermutation(list, rolls);
  }

  /** One round of the first loop of `Shuffle`: the popped card is the next one of the reversed deck. */
  lemma PopStep(start: Deck, i: nat)
    requires i < |start|
    ensures NextCard(start[..|start| - i]) == Success((start[|start| - 1 - i], start[..|start| - 1 - i]))
    ensures Reverse(start)[..i + 1] == Reverse(start)[..i] + [start[|start| - 1 - i]]
  {
    assert start[..|start| - i][..|start| - i - 1] == start[..|start| - 1 - i];
  }

  /** One round of the second loop of `Shuffle`: `Draw` takes the card at the first roll. */
  lemma DrawStep(stack: Deck, list: seq<Card>, rolls: seq<int>)
    requires |list| > 0 && ValidRolls(|list|, rolls)
    ensures ValidRolls(|list| - 1, rolls[1..])
    ensures Push(stack, list[rolls[0]]) + Draw(RemoveAt(list, rolls[0]), rolls[1..]) == stack + Draw(list, rolls)
  {
    ValidRollsTail(|list|, rolls);
    var c := list[rolls[0]];
    var rest := Draw(RemoveAt(list, rolls[0]), rolls[1..]);
    assert Draw(list, rolls) == [c] + rest;
    SeqAssoc(stack, [c], rest);
  }

  /** Regrouping a concatenation; a lemma only to keep `DrawStep`'s proof small for the solver. */
  lemma SeqAssoc(a: Deck, b: Deck, c: Deck)
    ensures a + b + c == a + (b + c)
  {
  }

  /** Every ordering of the cards can come out of `Draw`: `RollsFor` finds the rolls. */
  function RollsFor(list: seq<Card>, target: Deck): (rolls: seq<int>)
    requires multiset(target) == multiset(list)
    ensures ValidRolls(|list|, rolls)
    ensures Draw(list, rolls) == target
    decreases |list|
  {
    if |list| == 0 then
      EmptyPermutation(list, target);
      []
    else
      var j := IndexOf(list, TargetHead(list, target));
      var rest := RollsFor(RemoveAt(list, j), target[1..]);
      RollsForStep(list, target, j, rest);
      [j] + rest
  }

  /** The first card of a reordering of a non-empty list occurs in the list, and the rest reorders what is left. */
  function TargetHead(list: seq<Card>, target: Deck): (c: Card)
    requires multiset(target) == multiset(list) && |list| > 0
    ensures c == target[0] && c in list && |target| == |list|
    ensures multiset(target[1..]) == multiset(list) - multiset{c}
  {
    assert |target| == |multiset(list)| > 0;
    assert target[0] in multiset(list);
    assert target == [target[0]] + target[1..];
    target[0]
  }

  lemma RollsForStep(list: seq<Card>, target: Deck, j: nat, rest: seq<int>)
    requires 0 <= j < |list| && |target| == |list| && list[j] == target[0]
    requires ValidRolls(|list| - 1, rest) && Draw(RemoveAt(list, j), rest) == target[1..]
    ensures ValidRolls(|list|, [j] + rest)
    ensures Draw(list, [j] + rest) == target
  {
    var rolls := [j] + rest;
    assert rolls[0] == j && rolls[1..] == rest;
    forall i | 0 <= i < |list|
      ensures 0 <= rolls[i] < |list| - i
    {
      if i > 0 {
        assert rolls[i] == rest[i - 1];
      }
    }
    assert Draw(list, rolls) == [target[0]] + target[1..];
  }

  /** Any permutation of the cards `Shuffle` starts from is one of its outcomes. */
  lemma ShuffleReachesEveryOrder(deck: Deck, target: Deck)
    requires multiset(target) == multiset(ShuffleStart(deck))
    ensures exists rolls :: ValidRolls(DeckSize, rolls) && Shuffled(deck, rolls) == target
  {
    var list := Reverse(ShuffleStart(deck));
    assert multiset(list) == multiset(ShuffleStart(deck)) by {
      ReverseIsPermutation(ShuffleStart(deck));
    }
    var rolls := RollsFor(list, target);
    assert ValidRolls(DeckSize, rolls) && Shuffled(deck, rolls) == target;
  }

  lemma {:induction false} ReverseIsPermutation(s: Deck)
    ensures multiset(Reverse(s)) == multiset(s)
    decreases |s|
  {
    if s != [] {
      var last := |s| - 1;
      ReverseIsPermutation(s[..last]);
      assert Reverse(s) == [s[last]] + Reverse(s[..last]);
      assert s == s[..last] + [s[last]];
    }
  }

  /** Every card is in a new deck, so 52 different cards are a whole deck in some order. */
  lemma DistinctFullDeck(deck: Deck)
    requires Distinct(deck) && |deck| == DeckSize
    ensures multiset(deck) == multiset(InitDeck())
  {
    var full := InitDeck();
    forall c | c in deck
      ensures c in full
    {
      assert full[CardIndex(c)] == c;
    }
    DistinctSameSizePermutation(deck, full);
  }

  /**
   * Shuffling a deck in which no card repeats (every deck this class builds
   * and deals from) yields the 52 cards, each exactly once.
   */
  lemma ShuffleOfDistinctDeck(deck: Deck, rolls: seq<int>)
    requires Distinct(deck) && ValidRolls(DeckSize, rolls)
    ensures multiset(Shuffled(deck, rolls)) == multiset(InitDeck())
    ensures Distinct(Shuffled(deck, rolls))
  {
    var start := ShuffleStart(deck);
    if |deck| == DeckSize {
      DistinctFullDeck(deck);
    }
    ReverseIsPermutation(start);
    DrawIsPermutation(Reverse(start), rolls);
    DistinctPermutation(InitDeck(), Shuffled(deck, rolls));
  }

  /**
   * `new Deck(shuffle)`: an empty stack, then `Shuffle` (which rebuilds it) or
   * `InitDeck`. The parameter defaults to `true`, so `new Deck()` is
   * `NewDeck(true, rolls)`.
   */
  method NewDeck(shuffle: bool, rolls: seq<int>) returns (deck: Deck)
    requires shuffle ==> ValidRolls(DeckSize, rolls)
    ensures !shuffle ==> deck == InitDeck()
    ensures shuffle ==> deck == Shuffled([], rolls)
    ensures multiset(deck) == multiset(InitDeck())
    ensures Distinct(deck)
  {
    if shuffle {
      deck := Shuffle([], rolls);
      DistinctPermutation(InitDeck(), deck);
    } else {
      deck := InitDeck();
    }
  }
}
