/** The card model, the deck builder and the card dealer of the blackjack game. */
module Cards {

  /** The face value of a number card. */
  type Pip = n: int | 2 <= n <= 10 witness 2

  datatype Suit = Hearts | Diamonds | Clubs | Spades

  datatype Rank = Num(pips: Pip) | Jack | Queen | King | Ace

  datatype Card = Card(suit: Suit, rank: Rank)

  /** Drawing from a deck that has no cards left. */
  datatype Error = DeckExhausted

  datatype Result<T> = Ok(value: T) | Err(error: Error)

  /** The card taken from the top of a deck and the deck that is left. */
  datatype Taken = Taken(card: Card, remaining: seq<Card>)

  const NumSuits: nat := 4
  const NumRanks: nat := 13

  /** The suit enumeration, position by position. */
  function SuitAt(i: nat): Suit
    requires i < NumSuits
  {
    if i == 0 then Hearts else if i == 1 then Diamonds else if i == 2 then Clubs else Spades
  }

  function SuitIndex(s: Suit): (i: nat)
    ensures i < NumSuits && SuitAt(i) == s
  {
    match s
    case Hearts => 0
    case Diamonds => 1
    case Clubs => 2
    case Spades => 3
  }

  /** The rank enumeration, position by position: 2 to 10, then jack, queen, king, ace. */
  function RankAt(j: nat): Rank
    requires j < NumRanks
  {
    if j < 9 then Num(j + 2)
    else if j == 9 then Jack
    else if j == 10 then Queen
    else if j == 11 then King
    else Ace
  }

  function RankIndex(r: Rank): (j: nat)
    ensures j < NumRanks && RankAt(j) == r
  {
    match r
    case Num(n) => n - 2
    case Jack => 9
    case Queen => 10
    case King => 11
    case Ace => 12
  }

  /** Every suit, in enumeration order. */
  function AllSuits(): (suits: seq<Suit>)
    ensures |suits| == NumSuits
    ensures forall s: Suit :: suits[SuitIndex(s)] == s
  {
    seq(NumSuits, i requires 0 <= i < NumSuits => SuitAt(i))
  }

  /** Every rank, in enumeration order. */
  function AllRanks(): (ranks: seq<Rank>)
    ensures |ranks| == NumRanks
    ensures forall r: Rank :: ranks[RankIndex(r)] == r
  {
    seq(NumRanks, j requires 0 <= j < NumRanks => RankAt(j))
  }

  /** The source's `reduce((a, v) => [...a, ...v])`: the rows concatenated left to right. */
  function Flatten(rows: seq<seq<Card>>): (r: seq<Card>)
    ensures forall c :: c in r <==> exists i :: 0 <= i < |rows| && c in rows[i]
  {
    if rows == [] then []
    else
      var init := rows[..|rows| - 1];
      assert forall i :: 0 <= i < |init| ==> init[i] == rows[i];
      Flatten(init) + rows[|rows| - 1]
  }

  /** One suit paired with every rank, in rank order (the inner `map`). */
  function SuitRow(s: Suit): (row: seq<Card>)
    ensures |row| == NumRanks
    ensures forall c :: c in row <==> c.suit == s
  {
    var row := seq(|AllRanks()|, j requires 0 <= j < |AllRanks()| => Card(s, AllRanks()[j]));
    assert forall c: Card :: c.suit == s ==> row[RankIndex(c.rank)] == c;
    row
  }

  /** The unshuffled deck: the rows of every suit, suit by suit. */
  function NewCardDeck(): (deck: seq<Card>)
    ensures forall c: Card :: c in deck
  {
    var rows := seq(|AllSuits()|, i requires 0 <= i < |AllSuits()| => SuitRow(AllSuits()[i]));
    assert forall c: Card :: c in rows[SuitIndex(c.suit)];
    Flatten(rows)
  }

  /** The position of a card in the unshuffled deck. */
  function CardIndex(c: Card): nat
  {
    SuitIndex(c.suit) * NumRanks + RankIndex(c.rank)
  }

  lemma RowMajorBound(i: nat, j: nat, m: nat, n: nat)
    requires i < m && j < n
    ensures i * n + j < m * n
  {
    calc {
      i * n + j;
    <
      i * n + n;
    ==
      (i + 1) * n;
    <=
      { MulMonotone(i + 1, m, n); }
      m * n;
    }
  }

  lemma {:induction false} MulMonotone(a: nat, b: nat, n: nat)
    requires a <= b
    ensures a * n <= b * n
  {
    if a < b {
      MulMonotone(a, b - 1, n);
      assert (b - 1) * n + n == b * n;
    }
  }

  /** Concatenating n-long rows gives |rows| * n cards. */
  lemma {:induction false} FlattenLength(rows: seq<seq<Card>>, n: nat)
    requires forall i :: 0 <= i < |rows| ==> |rows[i]| == n
    ensures |Flatten(rows)| == |rows| * n
  {
    if rows != [] {
      var k := |rows| - 1;
      FlattenLength(rows[..k], n);
      assert |rows| * n == k * n + n;
    }
  }

  /** Concatenating n-long rows puts element j of row i at position i * n + j. */
  lemma {:induction false} FlattenAt(rows: seq<seq<Card>>, n: nat, i: nat, j: nat)
    requires forall i :: 0 <= i < |rows| ==> |rows[i]| == n
    requires i < |rows| && j < n
    ensures i * n + j < |Flatten(rows)| && Flatten(rows)[i * n + j] == rows[i][j]
  {
    var k := |rows| - 1;
    var init := rows[..k];
    FlattenLength(init, n);
    assert Flatten(rows) == Flatten(init) + rows[k];
    if i < k {
      RowMajorBound(i, j, k, n);
      FlattenAt(init, n, i, j);
      assert init[i] == rows[i];
    } else {
      assert i * n == k * n;
    }
  }

  /** The deck holds |suits| * |ranks| cards in suit-major order. */
  lemma NewCardDeckLayout()
    ensures |NewCardDeck()| == NumSuits * NumRanks
    ensures forall p :: 0 <= p < |NewCardDeck()| ==>
      NewCardDeck()[p] == Card(AllSuits()[p / NumRanks], AllRanks()[p % NumRanks])
  {
    var rows := seq(|AllSuits()|, i requires 0 <= i < |AllSuits()| => SuitRow(AllSuits()[i]));
    FlattenLength(rows, NumRanks);
    forall p | 0 <= p < |NewCardDeck()|
      ensures NewCardDeck()[p] == Card(AllSuits()[p / NumRanks], AllRanks()[p % NumRanks])
    {
      var i, j := p / NumRanks, p % NumRanks;
      assert p == i * NumRanks + j;
      FlattenAt(rows, NumRanks, i, j);
      assert rows[i][j] == Card(AllSuits()[i], AllRanks()[j]);
    }
  }

  /** The deck is in suit-major order: element i * |ranks| + j pairs suit i with rank j. */
  lemma NewCardDeckSuitMajor(i: nat, j: nat)
    requires i < NumSuits && j < NumRanks
    ensures i * NumRanks + j < |NewCardDeck()|
    ensures NewCardDeck()[i * NumRanks + j] == Card(AllSuits()[i], AllRanks()[j])
  {
    NewCardDeckLayout();
    RowMajorBound(i, j, NumSuits, NumRanks);
  }

  /** Every (suit, rank) pair is in the deck at exactly one position, CardIndex(c). */
  lemma NewCardDeckHoldsEachCardOnce(c: Card)
    ensures CardIndex(c) < |NewCardDeck()| && NewCardDeck()[CardIndex(c)] == c
    ensures forall p :: 0 <= p < |NewCardDeck()| && NewCardDeck()[p] == c ==> p == CardIndex(c)
    ensures multiset(NewCardDeck())[c] == 1
  {
    NewCardDeckLayout();
    var k := CardIndex(c);
    RowMajorBound(SuitIndex(c.suit), RankIndex(c.rank), NumSuits, NumRanks);
    assert k / NumRanks == SuitIndex(c.suit) && k % NumRanks == RankIndex(c.rank);
    forall p | 0 <= p < |NewCardDeck()| && NewCardDeck()[p] == c
      ensures p == k
    {
      assert SuitAt(p / NumRanks) == c.suit && RankAt(p % NumRanks) == c.rank;
      assert p / NumRanks == SuitIndex(c.suit);
      assert p % NumRanks == RankIndex(c.rank);
    }
    SingleOccurrence(NewCardDeck(), c, k);
  }

  /** A value found at exactly one position occurs once in the multiset. */
  lemma {:induction false} SingleOccurrence(s: seq<Card>, c: Card, k: nat)
    requires k < |s| && s[k] == c
    requires forall p :: 0 <= p < |s| && s[p] == c ==> p == k
    ensures multiset(s)[c] == 1
  {
    var n := |s| - 1;
    assert s == s[..n] + [s[n]];
    if k == n {
      assert c !in s[..n];
    } else {
      SingleOccurrence(s[..n], c, k);
    }
  }

  /** The source's `takeCard`: the last card of the deck and the deck without it. */
  function TakeCard(deck: seq<Card>): (r: Result<Taken>)
    ensures r.Err? <==> deck == []
    ensures r.Ok? ==> r.value.remaining + [r.value.card] == deck
  {
    if deck == [] then Err(DeckExhausted)
    else Ok(Taken(deck[|deck| - 1], deck[..|deck| - 1]))
  }

  /** Putting a card back on top and taking it again gives back the card and the deck. */
  lemma TakeCardAfterPut(deck: seq<Card>, c: Card)
    ensures TakeCard(deck + [c]) == Ok(Taken(c, deck))
  {
  }
}
