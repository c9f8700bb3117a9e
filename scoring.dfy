/** The scorer: the value of a hand, with aces counted as 11 or 1. */
module Scoring {
  import opened Cards

  /** What a card adds before aces are resolved: a number card its face value,
      a jack, queen or king 10, an ace nothing (aces are counted apart). */
  function CardValue(c: Card): (v: nat)
    ensures v == 0 <==> c.rank == Ace
    ensures c.rank != Ace ==> 2 <= v <= 10
  {
    match c.rank
    case Num(n) => n
    case Jack => 10
    case Queen => 10
    case King => 10
    case Ace => 0
  }

  /** The sum of the values of the hand's non-ace cards: between 2 and 10 per non-ace card. */
  function NonAceTotal(hand: seq<Card>): (t: nat)
    ensures 2 * (|hand| - AceCount(hand)) <= t <= 10 * (|hand| - AceCount(hand))
  {
    if hand == [] then 0
    else NonAceTotal(hand[..|hand| - 1]) + CardValue(hand[|hand| - 1])
  }

  /** The number of aces in the hand: none exactly when no card is an ace. */
  function AceCount(hand: seq<Card>): (a: nat)
    ensures a <= |hand|
    ensures a == 0 <==> forall i :: 0 <= i < |hand| ==> hand[i].rank != Ace
  {
    if hand == [] then 0
    else AceCount(hand[..|hand| - 1]) + (if hand[|hand| - 1].rank == Ace then 1 else 0)
  }

  /** The hand's total with every ace counted as 1. */
  function HardTotal(hand: seq<Card>): (h: nat)
    ensures |hand| <= h
  {
    NonAceTotal(hand) + AceCount(hand)
  }

  /** Whether the scorer counts one of the hand's aces as 11: there is an ace and the
      non-ace total leaves room for 11, except that a total of exactly 10 with two or
      more aces counts every ace as 1. */
  predicate SoftAce(hand: seq<Card>)
    ensures SoftAce(hand) ==> AceCount(hand) >= 1 && NonAceTotal(hand) + 11 <= 21
  {
    var t, a := NonAceTotal(hand), AceCount(hand);
    a > 0 && (t < 10 || (t == 10 && a == 1))
  }

  /** The score of a hand: every ace as 1, plus 10 when one ace counts as 11. */
  function HandScore(hand: seq<Card>): (score: nat)
    ensures score == HardTotal(hand) || (score == HardTotal(hand) + 10 && SoftAce(hand))
  {
    HardTotal(hand) + (if SoftAce(hand) then 10 else 0)
  }

  /** The source's `calculateHandScore`: a pass over the cards that adds up the non-ace
      values and counts the aces, the two special cases for a non-ace total of 10, and
      then a greedy pass that counts each ace as 11 if the total stays at most 21, else 1. */
  method CalculateHandScore(hand: seq<Card>) returns (score: int)
    ensures score == HandScore(hand)
  {
    var totalScore := 0;
    var aces := 0;
    for i := 0 to |hand|
      invariant totalScore == NonAceTotal(hand[..i])
      invariant aces == AceCount(hand[..i])
    {
      assert hand[..i + 1][..i] == hand[..i];
      match hand[i].rank
      case Num(n) => totalScore := totalScore + n;
      case Jack => totalScore := totalScore + 10;
      case Queen => totalScore := totalScore + 10;
      case King => totalScore := totalScore + 10;
      case Ace => aces := aces + 1;
    }
    assert hand[..|hand|] == hand;

    if totalScore == 10 && aces == 1 {
      return totalScore + 11;
    }
    if totalScore == 10 && aces > 1 {
      return totalScore + aces;
    }

    ghost var base := totalScore;
    for i := 0 to aces
      invariant totalScore == base + i + (if i > 0 && base + 11 <= 21 then 10 else 0)
    {
      var currentScore := totalScore + 11;
      if currentScore > 21 {
        totalScore := totalScore + 1;
      } else {
        totalScore := totalScore + 11;
      }
    }
    return totalScore;
  }

  /** At most one ace ever counts as 11: the score is the hard total or 10 more, and
      10 more exactly when the scorer counts an ace as 11. */
  lemma ScoreIsHardOrSoft(hand: seq<Card>)
    ensures HardTotal(hand) <= HandScore(hand) <= HardTotal(hand) + 10
    ensures HandScore(hand) == HardTotal(hand) + 10 <==> SoftAce(hand)
    ensures SoftAce(hand) ==> AceCount(hand) >= 1
  {
  }

  /** An empty hand scores 0, and a hand without aces scores the plain sum of its values. */
  lemma AceFreeScore(hand: seq<Card>)
    requires AceCount(hand) == 0
    ensures HandScore(hand) == NonAceTotal(hand)
    ensures hand == [] ==> HandScore(hand) == 0
  {
  }

  /** The special cases for a non-ace total of exactly 10: one ace makes 21, k >= 2 aces
      make 10 + k. */
  lemma TenTotalScore(hand: seq<Card>)
    requires NonAceTotal(hand) == 10
    ensures AceCount(hand) == 1 ==> HandScore(hand) == 21
    ensures AceCount(hand) > 1 ==> HandScore(hand) == 10 + AceCount(hand)
  {
  }

  /** Outside those special cases the aces resolve greedily: the first ace counts 11 when
      the total then stays at most 21, every other ace counts 1. */
  lemma GreedyAceScore(hand: seq<Card>)
    requires NonAceTotal(hand) != 10 && AceCount(hand) > 0
    ensures NonAceTotal(hand) + 11 <= 21 ==> HandScore(hand) == NonAceTotal(hand) + 11 + (AceCount(hand) - 1)
    ensures NonAceTotal(hand) + 11 > 21 ==> HandScore(hand) == NonAceTotal(hand) + AceCount(hand)
  {
  }

  /** The ace-free part and the aces of two hands put together add up. */
  lemma {:induction false} CountsOfConcat(a: seq<Card>, b: seq<Card>)
    ensures NonAceTotal(a + b) == NonAceTotal(a) + NonAceTotal(b)
    ensures AceCount(a + b) == AceCount(a) + AceCount(b)
  {
    if b == [] {
      assert a + b == a;
    } else {
      var n := |b| - 1;
      assert (a + b)[..|a + b| - 1] == a + b[..n];
      assert (a + b)[|a + b| - 1] == b[n];
      CountsOfConcat(a, b[..n]);
    }
  }

  /** Taking a card out of the middle of a hand takes its value away. */
  lemma NonAceTotalOfSplit(front: seq<Card>, c: Card, back: seq<Card>)
    ensures NonAceTotal(front + [c] + back) == NonAceTotal(front + back) + CardValue(c)
  {
    CountsOfConcat(front + [c], back);
    CountsOfSnoc(front, c);
    CountsOfConcat(front, back);
  }

  /** Taking a card out of the middle of a hand takes its ace away, if it is one. */
  lemma AceCountOfSplit(front: seq<Card>, c: Card, back: seq<Card>)
    ensures AceCount(front + [c] + back) == AceCount(front + back) + (if c.rank == Ace then 1 else 0)
  {
    CountsOfConcat(front + [c], back);
    CountsOfSnoc(front, c);
    CountsOfConcat(front, back);
  }

  /** A sequence is its part before k, its element k and its part after k. */
  lemma SplitAt(s: seq<Card>, k: nat)
    requires k < |s|
    ensures s == s[..k] + [s[k]] + s[k + 1..]
  {
  }

  /** The cards of a sequence are those around position k and the one at k. */
  lemma SplitMultiset(s: seq<Card>, k: nat)
    requires k < |s|
    ensures multiset(s) == multiset(s[..k] + s[k + 1..]) + multiset{s[k]}
  {
    SplitAt(s, k);
    assert multiset(s) == multiset(s[..k]) + multiset{s[k]} + multiset(s[k + 1..]);
  }

  /** Taking the last card of h1 and the same card from position k of h2 leaves two
      hands with the same cards. */
  lemma RemainingPermutation(h1: seq<Card>, h2: seq<Card>, k: nat)
    requires multiset(h1) == multiset(h2) && h1 != []
    requires k < |h2| && h2[k] == h1[|h1| - 1]
    ensures multiset(h1[..|h1| - 1]) == multiset(h2[..k] + h2[k + 1..])
  {
    var n := |h1| - 1;
    var x := h1[n];
    assert h1 == h1[..n] + [x];
    assert multiset(h1) == multiset(h1[..n]) + multiset{x};
    SplitMultiset(h2, k);
    var rest1, rest2 := multiset(h1[..n]), multiset(h2[..k] + h2[k + 1..]);
    assert rest1 + multiset{x} == rest2 + multiset{x};
    assert rest1 == rest1 + multiset{x} - multiset{x};
    assert rest2 == rest2 + multiset{x} - multiset{x};
  }

  /** The score does not depend on the order of the cards. */
  lemma ScoreIgnoresOrder(h1: seq<Card>, h2: seq<Card>)
    requires multiset(h1) == multiset(h2)
    ensures HandScore(h1) == HandScore(h2)
  {
    CountsIgnoreOrder(h1, h2);
  }

  /** The non-ace total and the ace count do not depend on the order of the cards. */
  lemma {:induction false} CountsIgnoreOrder(h1: seq<Card>, h2: seq<Card>)
    requires multiset(h1) == multiset(h2)
    ensures NonAceTotal(h1) == NonAceTotal(h2) && AceCount(h1) == AceCount(h2)
  {
    if h1 == [] {
      assert h2 == [];
    } else {
      var n := |h1| - 1;
      var x := h1[n];
      assert x in multiset(h2);
      var k :| 0 <= k < |h2| && h2[k] == x;
      RemainingPermutation(h1, h2, k);
      SplitAt(h2, k);
      var front, back := h2[..k], h2[k + 1..];
      CountsIgnoreOrder(h1[..n], front + back);
      NonAceTotalOfSplit(front, x, back);
      AceCountOfSplit(front, x, back);
    }
  }

  /** A two-card hand scores 21 exactly when it is an ace and a card worth 10. */
  lemma BlackjackIsAceAndTen(hand: seq<Card>)
    requires |hand| == 2
    ensures HandScore(hand) == 21 <==>
      (hand[0].rank == Ace && CardValue(hand[1]) == 10) ||
      (hand[1].rank == Ace && CardValue(hand[0]) == 10)
  {
    assert hand == [hand[0], hand[1]];
    Pair(hand[0], hand[1]);
  }

  /** No hand of at most two cards is bust, and a two-card 21 is one ace and 10 more. */
  lemma SmallHandScore(hand: seq<Card>)
    ensures |hand| <= 2 ==> HandScore(hand) <= 21
    ensures |hand| == 2 && HandScore(hand) == 21 ==> AceCount(hand) == 1 && NonAceTotal(hand) == 10
  {
    if |hand| == 1 {
      assert hand == [] + [hand[0]];
      CountsOfSnoc([], hand[0]);
    } else if |hand| == 2 {
      assert hand == [hand[0], hand[1]];
      Pair(hand[0], hand[1]);
    }
  }

  /** The counts of a hand with one more card on the end. */
  lemma CountsOfSnoc(hand: seq<Card>, c: Card)
    ensures NonAceTotal(hand + [c]) == NonAceTotal(hand) + CardValue(c)
    ensures AceCount(hand + [c]) == AceCount(hand) + (if c.rank == Ace then 1 else 0)
  {
    assert (hand + [c])[..|hand|] == hand;
  }

  /** Worked examples: ace and king, two aces, nine and ace, king and two aces. */
  lemma ScoreExamples()
    ensures HandScore([Card(Spades, Ace), Card(Hearts, King)]) == 21
    ensures HandScore([Card(Spades, Ace), Card(Hearts, Ace)]) == 12
    ensures HandScore([Card(Clubs, Num(9)), Card(Hearts, Ace)]) == 20
    ensures HandScore([Card(Clubs, King), Card(Hearts, Ace), Card(Spades, Ace)]) == 12
  {
    var aceS, aceH, king, nine := Card(Spades, Ace), Card(Hearts, Ace), Card(Hearts, King), Card(Clubs, Num(9));
    Pair(aceS, king);
    Pair(aceS, aceH);
    Pair(nine, aceH);
    var kingClubs := Card(Clubs, King);
    var twoCards := [kingClubs, aceH];
    Pair(kingClubs, aceH);
    assert NonAceTotal(twoCards) == 10 && AceCount(twoCards) == 1;
    CountsOfSnoc(twoCards, aceS);
    assert twoCards + [aceS] == [kingClubs, aceH, aceS];
  }

  /** The counts of a two-card hand. */
  lemma Pair(x: Card, y: Card)
    ensures NonAceTotal([x, y]) == CardValue(x) + CardValue(y)
    ensures AceCount([x, y]) == (if x.rank == Ace then 1 else 0) + (if y.rank == Ace then 1 else 0)
  {
    CountsOfSnoc([], x);
    CountsOfSnoc([x], y);
    assert [] + [x] == [x];
    assert [x] + [y] == [x, y];
  }

  /** The greedy resolution can bust a hand whose hard total is far below 21: nine and
      three aces scores 22, although counting every ace as 1 gives 12. */
  lemma GreedyOvershoot()
    ensures var h := [Card(Clubs, Num(9)), Card(Hearts, Ace), Card(Spades, Ace), Card(Diamonds, Ace)];
      HardTotal(h) == 12 && HandScore(h) == 22
  {
    var x, y, z, w := Card(Clubs, Num(9)), Card(Hearts, Ace), Card(Spades, Ace), Card(Diamonds, Ace);
    Pair(x, y);
    CountsOfSnoc([x, y], z);
    assert [x, y] + [z] == [x, y, z];
    CountsOfSnoc([x, y, z], w);
    assert [x, y, z] + [w] == [x, y, z, w];
  }
}
