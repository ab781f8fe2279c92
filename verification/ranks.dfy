/** Ranks, suits and cards as the packed encodings consume them.

    A rank is an ordinal weight (Two = 0 .. Ace = 12) together with the prime
    that the hand evaluator multiplies; a suit is a weight (Clubs = 1,
    Diamonds = 2, Hearts = 3, Spades = 4) that selects one suit bit. The
    crate's own `Rank`, `Suit` and `Card` types carry more (names, glyphs);
    only the fields the encoders read are modelled here. */
module Ranks {

  /** The rank primes, indexed by rank weight: deuce = 2, trey = 3, four = 5, ..., ace = 41. */
  const PRIMES: seq<nat> := [2, 3, 5, 7, 11, 13, 17, 19, 23, 29, 31, 37, 41]

  const TWO: nat := 0
  const THREE: nat := 1
  const FOUR: nat := 2
  const FIVE: nat := 3
  const SIX: nat := 4
  const SEVEN: nat := 5
  const EIGHT: nat := 6
  const NINE: nat := 7
  const TEN: nat := 8
  const JACK: nat := 9
  const QUEEN: nat := 10
  const KING: nat := 11
  const ACE: nat := 12

  datatype Rank = Rank(weight: nat, prime: nat) {
    /** One of the thirteen ranks of a standard deck, with its table prime. */
    predicate IsValid() {
      weight < |PRIMES| && prime == PRIMES[weight]
    }
  }

  /** `Rank::new(weight)`: the rank of that weight, carrying its prime. */
  function RankOf(weight: nat): (r: Rank)
    requires weight < |PRIMES|
    ensures r.IsValid() && r.weight == weight
  {
    Rank(weight, PRIMES[weight])
  }

  /** `Rank::default()`: the blank rank, which is none of the thirteen. */
  const DEFAULT_RANK: Rank := Rank(0, 0)

  datatype Suit = Suit(weight: nat) {
    predicate IsValid() {
      1 <= weight <= 4
    }
  }

  const CLUBS: Suit := Suit(1)
  const DIAMONDS: Suit := Suit(2)
  const HEARTS: Suit := Suit(3)
  const SPADES: Suit := Suit(4)

  datatype Card = Card(rank: Rank, suit: Suit) {
    /** `Card::is_valid`: a real rank and a real suit. */
    predicate IsValid() {
      rank.IsValid() && suit.IsValid()
    }
  }

  /** What the deck lookup answers for an index it does not know. */
  const DEFAULT_CARD: Card := Card(DEFAULT_RANK, Suit(0))

  /** The blank rank is told apart from every real rank. */
  lemma DefaultRankIsNotValid()
    ensures !DEFAULT_RANK.IsValid()
    ensures forall w :: 0 <= w < |PRIMES| ==> RankOf(w) != DEFAULT_RANK
  {
  }

  // ---------------------------------------------------------------------------
  // The prime table

  ghost predicate IsPrime(n: nat) {
    n >= 2 && forall d :: 2 <= d < n ==> n % d != 0
  }

  /** Trial division by every candidate in [d, n): the executable form of `IsPrime`. */
  predicate NoDivisorFrom(n: nat, d: nat)
    requires d >= 2
    decreases n - d
  {
    d >= n || (n % d != 0 && NoDivisorFrom(n, d + 1))
  }

  lemma {:induction false} NoDivisorFromMeans(n: nat, d: nat)
    requires d >= 2
    ensures NoDivisorFrom(n, d) <==> forall e :: d <= e < n ==> n % e != 0
    decreases n - d
  {
    if d < n {
      NoDivisorFromMeans(n, d + 1);
    }
  }

  // Trial division confirms the larger table entries.

  lemma Prime17()
    ensures NoDivisorFrom(17, 2)
  {
    assert NoDivisorFrom(17, 9);
    assert NoDivisorFrom(17, 2);
  }

  lemma Prime19()
    ensures NoDivisorFrom(19, 2)
  {
    assert NoDivisorFrom(19, 11);
    assert NoDivisorFrom(19, 3);
    assert NoDivisorFrom(19, 2);
  }

  lemma Prime23()
    ensures NoDivisorFrom(23, 2)
  {
    assert NoDivisorFrom(23, 15);
    assert NoDivisorFrom(23, 7);
    assert NoDivisorFrom(23, 2);
  }

  lemma Prime29()
    ensures NoDivisorFrom(29, 2)
  {
    assert NoDivisorFrom(29, 21);
    assert NoDivisorFrom(29, 13);
    assert NoDivisorFrom(29, 5);
    assert NoDivisorFrom(29, 2);
  }

  lemma Prime31()
    ensures NoDivisorFrom(31, 2)
  {
    assert NoDivisorFrom(31, 23);
    assert NoDivisorFrom(31, 15);
    assert NoDivisorFrom(31, 7);
    assert NoDivisorFrom(31, 2);
  }

  lemma Prime37()
    ensures NoDivisorFrom(37, 2)
  {
    assert NoDivisorFrom(37, 29);
    assert NoDivisorFrom(37, 21);
    assert NoDivisorFrom(37, 13);
    assert NoDivisorFrom(37, 5);
    assert NoDivisorFrom(37, 2);
  }

  lemma Prime41()
    ensures NoDivisorFrom(41, 2)
  {
    assert NoDivisorFrom(41, 33);
    assert NoDivisorFrom(41, 25);
    assert NoDivisorFrom(41, 17);
    assert NoDivisorFrom(41, 9);
    assert NoDivisorFrom(41, 2);
  }

  /** Every entry of the table is prime: trial division finds no divisor. */
  lemma {:induction false} TableEntriesArePrime()
    ensures forall i :: 0 <= i < |PRIMES| ==> IsPrime(PRIMES[i])
  {
    Prime17(); Prime19(); Prime23(); Prime29(); Prime31(); Prime37(); Prime41();
    assert NoDivisorFrom(2, 2) && NoDivisorFrom(3, 2) && NoDivisorFrom(5, 2);
    assert NoDivisorFrom(7, 2) && NoDivisorFrom(11, 2) && NoDivisorFrom(13, 2);
    forall i | 0 <= i < |PRIMES|
      ensures IsPrime(PRIMES[i])
    {
      NoDivisorFromMeans(PRIMES[i], 2);
    }
  }

  /** No prime below 42 is missing from the table: each other number in range
      has 2, 3 or 5 as a proper divisor. */
  lemma {:induction false} TableHasEveryPrimeBelow42()
    ensures forall n :: 2 <= n <= 41 && IsPrime(n) ==> n in PRIMES
  {
    forall n | 2 <= n <= 41 && n !in PRIMES
      ensures !IsPrime(n)
    {
      if n % 2 == 0 {
        assert n % 2 == 0;
      } else if n % 3 == 0 {
        assert n % 3 == 0;
      } else {
        assert n % 5 == 0;
      }
    }
  }

  /** The table holds exactly the primes below 42, in increasing order, so the
      thirteen ranks get thirteen distinct primes and a product of rank primes
      determines the multiset of ranks. */
  lemma PrimeTable()
    ensures forall i :: 0 <= i < |PRIMES| ==> IsPrime(PRIMES[i]) && PRIMES[i] < 64
    ensures forall i, j :: 0 <= i < j < |PRIMES| ==> PRIMES[i] < PRIMES[j]
    ensures forall n :: 2 <= n <= 41 ==> (IsPrime(n) <==> n in PRIMES)
  {
    TableEntriesArePrime();
    TableHasEveryPrimeBelow42();
  }
}
