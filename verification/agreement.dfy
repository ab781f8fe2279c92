/** `card_to_deck_number` and `BitCard::new_from_card` build the same word:
    the `u32` the first returns is the big-endian integer the 32 elements of
    the second spell, once a `VSupCard` is read as a `Card` of the same weight
    with suit weight 4, 3, 2, 1 for Spades, Hearts, Diamonds, Clubs. */
module Agreement {
  import opened Bits
  import opened Ranks
  import opened BitCards
  import opened VSupCards

  /** The crate's suit weights: Spades 4, Hearts 3, Diamonds 2, Clubs 1. */
  function SuitOf(s: VSupSuit): (u: Suit)
    ensures u.IsValid()
  {
    match s
    case Spades => SPADES
    case Hearts => HEARTS
    case Diamonds => DIAMONDS
    case Clubs => CLUBS
  }

  /** The `Card` a `VSupCard` names. */
  function ToCard(c: VSupCard): (r: Card)
    ensures r.IsValid() && Fits(r)
    ensures r.rank.weight == ValueWeight(c.value)
  {
    var r := Card(RankOf(ValueWeight(c.value)), SuitOf(c.suit));
    ValidCardsFit(r);
    r
  }

  /** The powers of two the packed word is built from. */
  lemma Pow2Table()
    ensures Pow2(12) == 0x1000 && Pow2(13) == 0x2000 && Pow2(14) == 0x4000 && Pow2(15) == 0x8000
    ensures Pow2(16) == 0x1_0000 && Pow2(17) == 0x2_0000 && Pow2(18) == 0x4_0000 && Pow2(19) == 0x8_0000
    ensures Pow2(20) == 0x10_0000 && Pow2(21) == 0x20_0000 && Pow2(22) == 0x40_0000 && Pow2(23) == 0x80_0000
    ensures Pow2(24) == 0x100_0000 && Pow2(25) == 0x200_0000 && Pow2(26) == 0x400_0000 && Pow2(27) == 0x800_0000
    ensures Pow2(28) == 0x1000_0000
  {
    Pow2Widths();
    assert Pow2(20) == 0x10_0000;
    assert Pow2(24) == 0x100_0000;
  }

  /** The weights `card_to_deck_number` gives the values are the crate's own
      rank weights `TWO` .. `ACE`. */
  lemma ValueWeightsAreRankWeights()
    ensures ValueWeight(Two) == TWO && ValueWeight(Three) == THREE && ValueWeight(Four) == FOUR
    ensures ValueWeight(Five) == FIVE && ValueWeight(Six) == SIX && ValueWeight(Seven) == SEVEN
    ensures ValueWeight(Eight) == EIGHT && ValueWeight(Nine) == NINE && ValueWeight(Ten) == TEN
    ensures ValueWeight(Jack) == JACK && ValueWeight(Queen) == QUEEN && ValueWeight(King) == KING
    ensures ValueWeight(Ace) == ACE
  {
  }

  /** The integer the layout gives a card: rank flag at bit `16 + weight`,
      suit at bit `16 - suit weight`, weight from bit 8, prime from bit 0. */
  function LayoutValue(c: VSupCard): nat {
    var w := ValueWeight(c.value);
    Pow2(16 + w) + Pow2(16 - SuitOf(c.suit).weight) + w * 256 + PRIMES[w]
  }

  // The `u32` of each card, converted to an integer. The solver turns a
  // `bv32` into an integer cheaply only when the word is concrete, so each
  // card's word is computed outright; a single lemma over all 52 cards runs
  // past the resource budget of one proof, while one lemma per value keeps
  // each proof to four words. `DeckNumberValue` joins them.

  lemma DeckNumberOfTwo(s: VSupSuit)
    ensures CardToDeckNumber(VSupCard(Two, s)) as int == LayoutValue(VSupCard(Two, s))
  {
    Pow2Table();
    match s { case Spades => case Hearts => case Diamonds => case Clubs => }
  }

  lemma DeckNumberOfThree(s: VSupSuit)
    ensures CardToDeckNumber(VSupCard(Three, s)) as int == LayoutValue(VSupCard(Three, s))
  {
    Pow2Table();
    match s { case Spades => case Hearts => case Diamonds => case Clubs => }
  }

  lemma DeckNumberOfFour(s: VSupSuit)
    ensures CardToDeckNumber(VSupCard(Four, s)) as int == LayoutValue(VSupCard(Four, s))
  {
    Pow2Table();
    match s { case Spades => case Hearts => case Diamonds => case Clubs => }
  }

  lemma DeckNumberOfFive(s: VSupSuit)
    ensures CardToDeckNumber(VSupCard(Five, s)) as int == LayoutValue(VSupCard(Five, s))
  {
    Pow2Table();
    match s { case Spades => case Hearts => case Diamonds => case Clubs => }
  }

  lemma DeckNumberOfSix(s: VSupSuit)
    ensures CardToDeckNumber(VSupCard(Six, s)) as int == LayoutValue(VSupCard(Six, s))
  {
    Pow2Table();
    match s { case Spades => case Hearts => case Diamonds => case Clubs => }
  }

  lemma DeckNumberOfSeven(s: VSupSuit)
    ensures CardToDeckNumber(VSupCard(Seven, s)) as int == LayoutValue(VSupCard(Seven, s))
  {
    Pow2Table();
    match s { case Spades => case Hearts => case Diamonds => case Clubs => }
  }

  lemma DeckNumberOfEight(s: VSupSuit)
    ensures CardToDeckNumber(VSupCard(Eight, s)) as int == LayoutValue(VSupCard(Eight, s))
  {
    Pow2Table();
    match s { case Spades => case Hearts => case Diamonds => case Clubs => }
  }

  lemma DeckNumberOfNine(s: VSupSuit)
    ensures CardToDeckNumber(VSupCard(Nine, s)) as int == LayoutValue(VSupCard(Nine, s))
  {
    Pow2Table();
    match s { case Spades => case Hearts => case Diamonds => case Clubs => }
  }

  lemma DeckNumberOfTen(s: VSupSuit)
    ensures CardToDeckNumber(VSupCard(Ten, s)) as int == LayoutValue(VSupCard(Ten, s))
  {
    Pow2Table();
    match s { case Spades => case Hearts => case Diamonds => case Clubs => }
  }

  lemma DeckNumberOfJack(s: VSupSuit)
    ensures CardToDeckNumber(VSupCard(Jack, s)) as int == LayoutValue(VSupCard(Jack, s))
  {
    Pow2Table();
    match s { case Spades => case Hearts => case Diamonds => case Clubs => }
  }

  lemma DeckNumberOfQueen(s: VSupSuit)
    ensures CardToDeckNumber(VSupCard(Queen, s)) as int == LayoutValue(VSupCard(Queen, s))
  {
    Pow2Table();
    match s { case Spades => case Hearts => case Diamonds => case Clubs => }
  }

  lemma DeckNumberOfKing(s: VSupSuit)
    ensures CardToDeckNumber(VSupCard(King, s)) as int == LayoutValue(VSupCard(King, s))
  {
    Pow2Table();
    match s { case Spades => case Hearts => case Diamonds => case Clubs => }
  }

  lemma DeckNumberOfAce(s: VSupSuit)
    ensures CardToDeckNumber(VSupCard(Ace, s)) as int == LayoutValue(VSupCard(Ace, s))
  {
    Pow2Table();
    match s { case Spades => case Hearts => case Diamonds => case Clubs => }
  }

  /** `card_to_deck_number`, read as an unsigned integer, is the layout
      value of the card. */
  lemma DeckNumberValue(c: VSupCard)
    ensures CardToDeckNumber(c) as int == LayoutValue(c)
  {
    match c.value
    case Two => DeckNumberOfTwo(c.suit);
    case Three => DeckNumberOfThree(c.suit);
    case Four => DeckNumberOfFour(c.suit);
    case Five => DeckNumberOfFive(c.suit);
    case Six => DeckNumberOfSix(c.suit);
    case Seven => DeckNumberOfSeven(c.suit);
    case Eight => DeckNumberOfEight(c.suit);
    case Nine => DeckNumberOfNine(c.suit);
    case Ten => DeckNumberOfTen(c.suit);
    case Jack => DeckNumberOfJack(c.suit);
    case Queen => DeckNumberOfQueen(c.suit);
    case King => DeckNumberOfKing(c.suit);
    case Ace => DeckNumberOfAce(c.suit);
  }

  /** The two encoders agree on every card: the `u32` of `card_to_deck_number`
      is the big-endian integer of the `BitCard` built from the same card. */
  lemma DeckNumberAgrees(c: VSupCard)
    ensures CardToDeckNumber(c) as int == LoadBe(NewFromCard(ToCard(c)).bits)
  {
    var card := ToCard(c);
    NewFromCardValue(card);
    DeckNumberValue(c);
    assert card.rank.prime == PRIMES[ValueWeight(c.value)];
    assert card.suit.weight == SuitOf(c.suit).weight;
  }

  /** The Ace of Spades packs to 268442665, the integer whose word is
      `00010000 00000000 00011100 00101001` (see `AceOfSpadesFromInteger`). */
  lemma AceOfSpadesDeckNumber(c: VSupCard)
    requires c == VSupCard(Ace, Spades)
    ensures ToCard(c) == ACE_OF_SPADES
    ensures CardToDeckNumber(c) as int == 268442665
  {
  }
}
