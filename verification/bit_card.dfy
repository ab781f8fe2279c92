/** `BitCard`: the packed "Cactus Kev" word held as 32 bits, most significant
    first. Element `i` of the array is bit `31 - i` of the word:

      elements  0..8    8..16     16..24    24..32
               xxxbbbbb bbbbbbbb  cdhsrrrr  xxpppppp

    - elements 3..16: one-hot rank flag, Ace at element 3 .. Two at element 15
    - elements 16..20: one-hot suit, Clubs at 16 .. Spades at 19
    - elements 20..24: rank weight, big-endian
    - elements 26..32: rank prime, big-endian
    - elements 0..3 and 24..26: always clear */
module BitCards {
  import opened Bits
  import opened Ranks

  /** `BitArray<Msb0, [u8; 4]>`: element 0 is the most significant bit. */
  type BitArray32 = s: seq<bool> | |s| == 32 witness Zeros(32)

  datatype BitCard = BitCard(bits: BitArray32)

  datatype CardError = InvalidCard

  datatype Result<T> = Ok(value: T) | Err(error: CardError)

  /** `BitCard::default()`: the blank word. */
  function Default(): (b: BitCard)
    ensures IsBlank(b)
  {
    BitCard(Zeros(32))
  }

  // ---------------------------------------------------------------------------
  // Bit-array primitives

  /** `self.0[lo..hi].store_be(v)`: writes `v` big-endian into elements
      [lo, hi) and leaves every other element as it was. */
  function StoreField(b: BitCard, lo: nat, hi: nat, v: nat): (r: BitCard)
    requires lo <= hi <= 32 && v < Pow2(hi - lo)
    ensures LoadBe(r.bits[lo..hi]) == v
    ensures forall i :: lo <= i < hi ==> r.bits[i] == StoreBe(v, hi - lo)[i - lo]
    ensures forall i :: 0 <= i < 32 && !(lo <= i < hi) ==> r.bits[i] == b.bits[i]
  {
    var field := StoreBe(v, hi - lo);
    var bits := b.bits[..lo] + field + b.bits[hi..];
    assert bits[lo..hi] == field;
    LoadStore(v, hi - lo);
    BitCard(bits)
  }

  /** `self.0.set(i, true)`. */
  function SetBit(b: BitCard, i: nat): (r: BitCard)
    requires i < 32
    ensures r.bits[i]
    ensures forall j :: 0 <= j < 32 && j != i ==> r.bits[j] == b.bits[j]
  {
    BitCard(b.bits[i := true])
  }

  // ---------------------------------------------------------------------------
  // The four field setters

  /** The rank's weight and prime fit the 4-bit and 6-bit fields they are
      stored into. Every real rank does. */
  predicate Fits(c: Card) {
    c.rank.weight < 16 && c.rank.prime < 64
  }

  lemma ValidCardsFit(c: Card)
    requires c.rank.IsValid()
    ensures Fits(c)
  {
    PrimeTable();
  }

  /** `set_rank`: the weight goes into elements 20..24 ("rrrr"). */
  function SetRank(b: BitCard, c: Card): (r: BitCard)
    requires c.rank.weight < 16
    ensures LoadBe(r.bits[20..24]) == c.rank.weight
    ensures forall i :: 20 <= i < 24 ==> r.bits[i] == StoreBe(c.rank.weight, 4)[i - 20]
    ensures forall i :: 0 <= i < 32 && !(20 <= i < 24) ==> r.bits[i] == b.bits[i]
  {
    Pow2Widths();
    StoreField(b, 20, 24, c.rank.weight)
  }

  /** `set_rank_flag`: weight 12 (Ace) sets element 3, 11 (King) element 4,
      .., 0 (Two) element 15; any other weight sets nothing. */
  function SetRankFlag(b: BitCard, c: Card): (r: BitCard)
    ensures c.rank.weight <= 12 ==> 3 <= 15 - c.rank.weight < 16 && r.bits[15 - c.rank.weight]
    ensures forall i :: 0 <= i < 32 && (c.rank.weight > 12 || i != 15 - c.rank.weight) ==>
      r.bits[i] == b.bits[i]
  {
    if c.rank.weight <= 12 then SetBit(b, 15 - c.rank.weight) else b
  }

  /** `set_rank_prime`: the prime goes into elements 26..32 ("pppppp"). */
  function SetRankPrime(b: BitCard, c: Card): (r: BitCard)
    requires c.rank.prime < 64
    ensures LoadBe(r.bits[26..32]) == c.rank.prime
    ensures forall i :: 26 <= i < 32 ==> r.bits[i] == StoreBe(c.rank.prime, 6)[i - 26]
    ensures forall i :: 0 <= i < 32 && !(26 <= i < 32) ==> r.bits[i] == b.bits[i]
  {
    Pow2Widths();
    StoreField(b, 26, 32, c.rank.prime)
  }

  /** `set_suit`: Spades (4) sets element 19, Hearts (3) 18, Diamonds (2) 17,
      Clubs (1) 16; any other weight sets nothing. */
  function SetSuit(b: BitCard, c: Card): (r: BitCard)
    ensures c.suit.IsValid() ==> 16 <= 15 + c.suit.weight < 20 && r.bits[15 + c.suit.weight]
    ensures forall i :: 0 <= i < 32 && (!c.suit.IsValid() || i != 15 + c.suit.weight) ==>
      r.bits[i] == b.bits[i]
  {
    if c.suit.IsValid() then SetBit(b, 15 + c.suit.weight) else b
  }

  /** The rank-flag field a weight produces: elements 3..16 of the word. */
  function FlagField(weight: nat): seq<bool> {
    if weight <= 12 then OneHot(13, 12 - weight) else Zeros(13)
  }

  /** The suit field a suit produces: elements 16..20 of the word. */
  function SuitField(suit: Suit): seq<bool> {
    if suit.IsValid() then OneHot(4, suit.weight - 1) else Zeros(4)
  }

  /** The four setters of `new_from_card`, in its order, on a blank word. */
  function ApplySetters(c: Card): BitCard
    requires Fits(c)
  {
    SetSuit(SetRankPrime(SetRankFlag(SetRank(Default(), c), c), c), c)
  }

  lemma ApplySettersWeight(c: Card)
    requires Fits(c)
    ensures LoadBe(ApplySetters(c).bits[20..24]) == c.rank.weight
  {
    var b1 := SetRank(Default(), c);
    assert ApplySetters(c).bits[20..24] == b1.bits[20..24];
  }

  lemma ApplySettersPrime(c: Card)
    requires Fits(c)
    ensures LoadBe(ApplySetters(c).bits[26..32]) == c.rank.prime
  {
    var b3 := SetRankPrime(SetRankFlag(SetRank(Default(), c), c), c);
    assert ApplySetters(c).bits[26..32] == b3.bits[26..32];
  }

  lemma ApplySettersFlag(c: Card)
    requires Fits(c)
    ensures ApplySetters(c).bits[3..16] == FlagField(c.rank.weight)
  {
    var b1 := SetRank(Default(), c);
    var b2 := SetRankFlag(b1, c);
    var s := ApplySetters(c).bits;
    var flag := FlagField(c.rank.weight);
    forall k | 0 <= k < 13
      ensures s[3 + k] == flag[k]
    {
      assert s[3 + k] == b2.bits[3 + k];
      assert !b1.bits[3 + k];
    }
    assert s[3..16] == flag;
  }

  lemma ApplySettersSuit(c: Card)
    requires Fits(c)
    ensures ApplySetters(c).bits[16..20] == SuitField(c.suit)
  {
    var b3 := SetRankPrime(SetRankFlag(SetRank(Default(), c), c), c);
    assert forall i :: 16 <= i < 20 ==> !b3.bits[i];
  }

  lemma ApplySettersClear(c: Card)
    requires Fits(c)
    ensures forall i :: 0 <= i < 3 || 24 <= i < 26 ==> !ApplySetters(c).bits[i]
  {
  }

  /** `BitCard::new_from_card`: the four setters applied to a blank word.
      Each field holds exactly what its setter wrote, and the unused bits
      stay clear. */
  function NewFromCard(c: Card): (r: BitCard)
    requires Fits(c)
    ensures LoadBe(r.bits[20..24]) == c.rank.weight
    ensures LoadBe(r.bits[26..32]) == c.rank.prime
    ensures r.bits[3..16] == FlagField(c.rank.weight)
    ensures r.bits[16..20] == SuitField(c.suit)
    ensures forall i :: 0 <= i < 3 || 24 <= i < 26 ==> !r.bits[i]
  {
    ApplySettersWeight(c);
    ApplySettersPrime(c);
    ApplySettersFlag(c);
    ApplySettersSuit(c);
    ApplySettersClear(c);
    ApplySetters(c)
  }

  /** The four setters touch disjoint elements, so on any word they commute
      pairwise, and any order of the four builds the same card. */
  lemma SettersCommute(b: BitCard, c: Card)
    requires Fits(c)
    ensures SetRank(SetRankFlag(b, c), c) == SetRankFlag(SetRank(b, c), c)
    ensures SetRank(SetRankPrime(b, c), c) == SetRankPrime(SetRank(b, c), c)
    ensures SetRank(SetSuit(b, c), c) == SetSuit(SetRank(b, c), c)
    ensures SetRankFlag(SetRankPrime(b, c), c) == SetRankPrime(SetRankFlag(b, c), c)
    ensures SetRankFlag(SetSuit(b, c), c) == SetSuit(SetRankFlag(b, c), c)
    ensures SetRankPrime(SetSuit(b, c), c) == SetSuit(SetRankPrime(b, c), c)
  {
    assert SetRank(SetRankFlag(b, c), c).bits == SetRankFlag(SetRank(b, c), c).bits;
    assert SetRank(SetRankPrime(b, c), c).bits == SetRankPrime(SetRank(b, c), c).bits;
    assert SetRank(SetSuit(b, c), c).bits == SetSuit(SetRank(b, c), c).bits;
    assert SetRankFlag(SetRankPrime(b, c), c).bits == SetRankPrime(SetRankFlag(b, c), c).bits;
    assert SetRankFlag(SetSuit(b, c), c).bits == SetSuit(SetRankFlag(b, c), c).bits;
    assert SetRankPrime(SetSuit(b, c), c).bits == SetSuit(SetRankPrime(b, c), c).bits;
  }

  /** A word cut at the field boundaries of the layout. */
  lemma CutAtFields(s: seq<bool>)
    requires |s| == 32
    ensures s == s[..3] + s[3..16] + s[16..20] + s[20..24] + s[24..26] + s[26..32]
  {
  }

  /** The integer a word spells, from the values of its fields. */
  lemma {:induction false} LoadBeFields(A: seq<bool>, B: seq<bool>, C: seq<bool>, D: seq<bool>, E: seq<bool>, F: seq<bool>)
    requires |A| == 3 && |B| == 13 && |C| == 4 && |D| == 4 && |E| == 2 && |F| == 6
    ensures LoadBe(A + B + C + D + E + F) ==
      LoadBe(A) * 0x2000_0000 + LoadBe(B) * 65536 + LoadBe(C) * 4096 +
      LoadBe(D) * 256 + LoadBe(E) * 64 + LoadBe(F)
  {
    Pow2Widths();
    var a, b, c, d, e, f := LoadBe(A), LoadBe(B), LoadBe(C), LoadBe(D), LoadBe(E), LoadBe(F);
    assert LoadBe(A + B) == a * 8192 + b by {
      LoadBeConcat(A, B);
      assert Pow2(13) == 8192;
    }
    assert LoadBe(A + B + C) == (a * 8192 + b) * 16 + c by {
      LoadBeConcat(A + B, C);
    }
    assert LoadBe(A + B + C + D) == ((a * 8192 + b) * 16 + c) * 16 + d by {
      LoadBeConcat(A + B + C, D);
    }
    assert LoadBe(A + B + C + D + E) == (((a * 8192 + b) * 16 + c) * 16 + d) * 4 + e by {
      LoadBeConcat(A + B + C + D, E);
    }
    assert LoadBe(A + B + C + D + E + F) == ((((a * 8192 + b) * 16 + c) * 16 + d) * 4 + e) * 64 + f by {
      LoadBeConcat(A + B + C + D + E, F);
    }
    FieldsArithmetic(a, b, c, d, e, f);
  }

  lemma FieldsArithmetic(a: int, b: int, c: int, d: int, e: int, f: int)
    ensures ((((a * 8192 + b) * 16 + c) * 16 + d) * 4 + e) * 64 + f ==
      a * 0x2000_0000 + b * 65536 + c * 4096 + d * 256 + e * 64 + f
  {
  }

  /** The whole word of an encoded card, field by field from the most
      significant end. */
  lemma NewFromCardLayout(c: Card)
    requires Fits(c)
    ensures NewFromCard(c).bits ==
      Zeros(3) + FlagField(c.rank.weight) + SuitField(c.suit) +
      StoreBe(c.rank.weight, 4) + Zeros(2) + StoreBe(c.rank.prime, 6)
  {
    Pow2Widths();
    var s := NewFromCard(c).bits;
    StoreLoad(s[20..24]);
    StoreLoad(s[26..32]);
    CutAtFields(s);
    assert s[..3] == Zeros(3);
    assert s[24..26] == Zeros(2);
  }

  /** The integer an encoded card spells: the rank flag at bit `16 + weight`,
      the suit at bit `16 - suit weight` (Spades at 12 .. Clubs at 15), the
      weight from bit 8 and the prime from bit 0. */
  lemma NewFromCardValue(c: Card)
    requires Fits(c)
    ensures LoadBe(NewFromCard(c).bits) ==
      (if c.rank.weight <= 12 then Pow2(16 + c.rank.weight) else 0) +
      (if c.suit.IsValid() then Pow2(16 - c.suit.weight) else 0) +
      c.rank.weight * 256 + c.rank.prime
  {
    NewFromCardLayout(c);
    var w, p := c.rank.weight, c.rank.prime;
    LoadBeFields(Zeros(3), FlagField(w), SuitField(c.suit), StoreBe(w, 4), Zeros(2), StoreBe(p, 6));
    LoadBeZeros(3);
    LoadBeZeros(2);
    LoadStore(w, 4);
    LoadStore(p, 6);
    FlagFieldValue(w);
    SuitFieldValue(c.suit);
  }

  /** The rank-flag field, shifted up 16 bits, is bit `16 + weight`. */
  lemma FlagFieldValue(weight: nat)
    ensures LoadBe(FlagField(weight)) * 65536 == if weight <= 12 then Pow2(16 + weight) else 0
  {
    Pow2Widths();
    if weight <= 12 {
      LoadBeOneHot(13, 12 - weight);
      Pow2Add(16, weight);
    } else {
      LoadBeZeros(13);
    }
  }

  /** The suit field, shifted up 12 bits, is bit `16 - suit weight`. */
  lemma SuitFieldValue(suit: Suit)
    ensures LoadBe(SuitField(suit)) * 4096 == if suit.IsValid() then Pow2(16 - suit.weight) else 0
  {
    Pow2Widths();
    if suit.IsValid() {
      LoadBeOneHot(4, suit.weight - 1);
      Pow2Add(12, 4 - suit.weight);
    } else {
      LoadBeZeros(4);
    }
  }

  // ---------------------------------------------------------------------------
  // Other constructors

  /** `BitCard::new_from_index`: looks the index up in the deck and encodes
      the card found, or reports `InvalidCard` when the lookup does not
      produce a real card (as for "xx"). */
  function NewFromIndex(index: string, cardFromIndex: string -> Card): (r: Result<BitCard>)
    ensures r.Err? <==> !cardFromIndex(index).IsValid()
    ensures r.Err? ==> r.error == InvalidCard
    ensures r.Ok? ==> Fits(cardFromIndex(index)) && r.value == NewFromCard(cardFromIndex(index))
    ensures r.Ok? ==> GetRank(r.value) == cardFromIndex(index).rank
    ensures r.Ok? ==> GetSuitSlice(r.value) == SuitField(cardFromIndex(index).suit)
  {
    var c := cardFromIndex(index);
    if c.IsValid() then
      ValidCardsFit(c);
      RankRoundTrip(c);
      Ok(NewFromCard(c))
    else
      Err(InvalidCard)
  }

  /** An index the deck does not know looks up the blank card, which is
      rejected. */
  lemma UnknownIndexRejected(index: string, cardFromIndex: string -> Card)
    requires cardFromIndex(index) == DEFAULT_CARD
    ensures NewFromIndex(index, cardFromIndex) == Err(InvalidCard)
  {
  }

  /** `BitCard::new_from_u64`: stores the integer big-endian across all 32
      elements, so reading the word back gives the integer. */
  function NewFromU64(n: nat): (r: BitCard)
    requires n < 0x1_0000_0000
    ensures LoadBe(r.bits) == n
  {
    Pow2Widths();
    var r := StoreField(Default(), 0, 32, n);
    assert r.bits[0..32] == r.bits;
    r
  }

  /** Every word is the integer constructor applied to its own value. */
  lemma NewFromU64Onto(b: BitCard)
    ensures LoadBe(b.bits) < 0x1_0000_0000
    ensures NewFromU64(LoadBe(b.bits)) == b
  {
    Pow2Widths();
    LoadBeInjective(NewFromU64(LoadBe(b.bits)).bits, b.bits);
  }

  // ---------------------------------------------------------------------------
  // Decoding

  /** `get_rank_bits_slice`: the upper 16 bits, elements 0..16. */
  function GetRankBitsSlice(b: BitCard): (s: seq<bool>)
    ensures |s| == 16 && forall i :: 0 <= i < 16 ==> s[i] == b.bits[i]
  {
    b.bits[..16]
  }

  /** `get_suit_slice`: the four suit bits, elements 16..20. */
  function GetSuitSlice(b: BitCard): (s: seq<bool>)
    ensures |s| == 4 && forall i :: 0 <= i < 4 ==> s[i] == b.bits[16 + i]
  {
    b.bits[16..20]
  }

  /** The upper-16-bit pattern `get_rank` recognises for a weight: only the
      rank flag of that weight set. */
  function RankPattern(weight: nat): seq<bool>
    requires weight <= 15
  {
    OneHot(16, 15 - weight)
  }

  /** Tries the patterns from `weight` down to Two, in the order of the arms
      of `get_rank` (Ace first); the blank rank when none matches. */
  function MatchRank(slice: seq<bool>, weight: nat): (r: Rank)
    requires |slice| == 16 && weight < |PRIMES|
    ensures r.IsValid() ==> r.weight <= weight && slice == RankPattern(r.weight)
    ensures !r.IsValid() ==> r == DEFAULT_RANK
    ensures r == DEFAULT_RANK <==> forall w :: 0 <= w <= weight ==> slice != RankPattern(w)
    decreases weight
  {
    if slice == RankPattern(weight) then RankOf(weight)
    else if weight == 0 then DEFAULT_RANK
    else MatchRank(slice, weight - 1)
  }

  /** `get_rank`: the rank whose one-hot pattern the upper 16 bits equal, or
      `Rank::default()` for any other pattern. */
  function GetRank(b: BitCard): (r: Rank)
    ensures r.IsValid() ==> GetRankBitsSlice(b) == RankPattern(r.weight)
    ensures !r.IsValid() ==> r == DEFAULT_RANK
    ensures r == DEFAULT_RANK <==> forall w :: 0 <= w < |PRIMES| ==> GetRankBitsSlice(b) != RankPattern(w)
  {
    MatchRank(GetRankBitsSlice(b), |PRIMES| - 1)
  }

  /** Decoding the rank of an encoded card gives the card's rank back. */
  lemma RankRoundTrip(c: Card)
    requires c.rank.IsValid()
    ensures Fits(c) && GetRank(NewFromCard(c)) == c.rank
  {
    ValidCardsFit(c);
    var b := NewFromCard(c);
    var w := c.rank.weight;
    assert GetRankBitsSlice(b) == Zeros(3) + b.bits[3..16];
    assert GetRankBitsSlice(b) == RankPattern(w);
    DefaultRankIsNotValid();
    var r := GetRank(b);
    assert r.IsValid();
  }

  /** Upper bits that are not one of the thirteen patterns decode to the blank
      rank: a bit set among elements 0..3, or two rank flags set. */
  lemma GetRankRejects(b: BitCard)
    requires (exists i :: 0 <= i < 3 && b.bits[i]) ||
             (exists i, j :: 3 <= i < j < 16 && b.bits[i] && b.bits[j]) ||
             (forall i :: 0 <= i < 16 ==> !b.bits[i])
    ensures GetRank(b) == DEFAULT_RANK
  {
    var s := GetRankBitsSlice(b);
    forall w | 0 <= w < |PRIMES|
      ensures s != RankPattern(w)
    {
      if exists i :: 0 <= i < 3 && b.bits[i] {
        var i :| 0 <= i < 3 && b.bits[i];
        assert s[i] != RankPattern(w)[i];
      } else if exists i, j :: 3 <= i < j < 16 && b.bits[i] && b.bits[j] {
        var i, j :| 3 <= i < j < 16 && b.bits[i] && b.bits[j];
        if i == 15 - w {
          assert s[j] != RankPattern(w)[j];
        } else {
          assert s[i] != RankPattern(w)[i];
        }
      } else {
        assert s[15 - w] != RankPattern(w)[15 - w];
      }
    }
  }

  /** The suit field is one-hot: `0001` Spades, `0010` Hearts, `0100`
      Diamonds, `1000` Clubs, and all clear for anything else. */
  lemma SuitFieldOneHot(suit: Suit)
    ensures suit == SPADES ==> SuitField(suit) == [false, false, false, true]
    ensures suit == HEARTS ==> SuitField(suit) == [false, false, true, false]
    ensures suit == DIAMONDS ==> SuitField(suit) == [false, true, false, false]
    ensures suit == CLUBS ==> SuitField(suit) == [true, false, false, false]
    ensures suit.IsValid() <==> exists i :: 0 <= i < 4 && SuitField(suit)[i]
  {
    if suit.IsValid() {
      assert SuitField(suit)[suit.weight - 1];
    }
  }

  /** `get_suit_slice` of an encoded card is its suit field. */
  lemma SuitSliceOfCard(c: Card)
    requires Fits(c)
    ensures GetSuitSlice(NewFromCard(c)) == SuitField(c.suit)
    ensures c.suit == SPADES ==> GetSuitSlice(NewFromCard(c)) == [false, false, false, true]
    ensures c.suit == HEARTS ==> GetSuitSlice(NewFromCard(c)) == [false, false, true, false]
    ensures c.suit == DIAMONDS ==> GetSuitSlice(NewFromCard(c)) == [false, true, false, false]
    ensures c.suit == CLUBS ==> GetSuitSlice(NewFromCard(c)) == [true, false, false, false]
    ensures c.suit.IsValid() <==> exists i :: 0 <= i < 4 && GetSuitSlice(NewFromCard(c))[i]
  {
    assert GetSuitSlice(NewFromCard(c)) == NewFromCard(c).bits[16..20];
    SuitFieldOneHot(c.suit);
  }

  /** Two cards that fit and have real suits encode alike only when they are
      the same card: weight, prime and suit are each read back from their
      own field. */
  lemma NewFromCardInjective(c1: Card, c2: Card)
    requires Fits(c1) && Fits(c2) && c1.suit.IsValid() && c2.suit.IsValid()
    requires NewFromCard(c1) == NewFromCard(c2)
    ensures c1 == c2
  {
    var s1, s2 := SuitField(c1.suit), SuitField(c2.suit);
    assert s1 == s2;
    assert s1[c1.suit.weight - 1];
  }

  // ---------------------------------------------------------------------------
  // Blank test

  /** The number of clear elements. */
  function CountZeros(s: seq<bool>): (n: nat)
    ensures n <= |s|
    ensures n == |s| <==> forall i :: 0 <= i < |s| ==> !s[i]
  {
    if |s| == 0 then 0
    else CountZeros(s[..|s| - 1]) + (if s[|s| - 1] then 0 else 1)
  }

  /** `is_blank`: all 32 elements are clear. */
  function IsBlank(b: BitCard): (blank: bool)
    ensures blank <==> forall i :: 0 <= i < 32 ==> !b.bits[i]
  {
    CountZeros(b.bits) == 32
  }

  /** No encoded card is blank: a weight up to 12 sets a rank flag, and a
      larger one leaves a nonzero weight field. */
  lemma EncodedCardIsNotBlank(c: Card)
    requires Fits(c)
    ensures !IsBlank(NewFromCard(c))
  {
    var b := NewFromCard(c);
    if c.rank.weight <= 12 {
      assert b.bits[3..16][12 - c.rank.weight];
    } else {
      LoadBeZeros(4);
      assert b.bits[20..24] != Zeros(4);
    }
  }

  // ---------------------------------------------------------------------------
  // Rendering

  function BitChar(bit: bool): char {
    if bit then '1' else '0'
  }

  /** How many separating spaces precede element `i` of a split rendering:
      one after each of the first three bytes. */
  function Gaps(i: nat): nat {
    (if i >= 8 then 1 else 0) + (if i >= 16 then 1 else 0) + (if i >= 24 then 1 else 0)
  }

  /** Where the rendering stands once the first `idx` elements are written. */
  function Written(split: bool, idx: nat): nat {
    if split then idx + Gaps(idx) else idx
  }

  /** Byte `k` of the word as eight '0'/'1' characters, most significant first. */
  function ByteDigits(b: BitCard, k: nat): (s: string)
    requires k < 4
    ensures |s| == 8 && forall j :: 0 <= j < 8 ==> s[j] == BitChar(b.bits[8 * k + j])
  {
    var i := 8 * k;
    [BitChar(b.bits[i]), BitChar(b.bits[i + 1]), BitChar(b.bits[i + 2]), BitChar(b.bits[i + 3]),
     BitChar(b.bits[i + 4]), BitChar(b.bits[i + 5]), BitChar(b.bits[i + 6]), BitChar(b.bits[i + 7])]
  }

  /** What `display(split)` produces: one '0' or '1' per element in index
      order and, when `split`, a single space after each of the first three
      bytes and nowhere else. */
  function Render(b: BitCard, split: bool): (s: string)
    ensures |s| == if split then 35 else 32
  {
    var b0, b1, b2, b3 := ByteDigits(b, 0), ByteDigits(b, 1), ByteDigits(b, 2), ByteDigits(b, 3);
    if split then b0 + " " + b1 + " " + b2 + " " + b3 else b0 + b1 + b2 + b3
  }

  /** Element `i` lands at `i` in a plain rendering and at `i + Gaps(i)` in
      a split one, as one '0' or '1'. */
  lemma RenderAt(b: BitCard, split: bool, i: nat)
    requires i < 32
    ensures Render(b, split)[Written(split, i)] == BitChar(b.bits[i])
  {
    var s := Render(b, split);
    var w := if split then 9 else 8;
    var b0, b1, b2, b3 := ByteDigits(b, 0), ByteDigits(b, 1), ByteDigits(b, 2), ByteDigits(b, 3);
    var gap: string := if split then " " else "";
    assert s == b0 + gap + b1 + gap + b2 + gap + b3;
    if i < 8 {
      assert s[..8] == b0;
      assert s[i] == s[..8][i];
    } else if i < 16 {
      assert s[w..w + 8] == b1;
      assert s[w + (i - 8)] == s[w..w + 8][i - 8];
    } else if i < 24 {
      assert s[2 * w..2 * w + 8] == b2;
      assert s[2 * w + (i - 16)] == s[2 * w..2 * w + 8][i - 16];
    } else {
      assert s[3 * w..3 * w + 8] == b3;
      assert s[3 * w + (i - 24)] == s[3 * w..3 * w + 8][i - 24];
    }
  }

  /** A split rendering has its spaces at 8, 17 and 26. */
  lemma RenderSpaces(b: BitCard)
    ensures Render(b, true)[8] == ' ' && Render(b, true)[17] == ' ' && Render(b, true)[26] == ' '
  {
    var b0, b1, b2, b3 := ByteDigits(b, 0), ByteDigits(b, 1), ByteDigits(b, 2), ByteDigits(b, 3);
    assert Render(b, true) == b0 + " " + b1 + " " + b2 + " " + b3;
  }

  /** Where each element lands in the rendering, and where the spaces go. */
  lemma RenderPositions(b: BitCard, split: bool)
    ensures forall i :: 0 <= i < 32 ==> Render(b, split)[Written(split, i)] == BitChar(b.bits[i])
    ensures split ==> Render(b, split)[8] == ' ' && Render(b, split)[17] == ' ' && Render(b, split)[26] == ' '
  {
    forall i | 0 <= i < 32
      ensures Render(b, split)[Written(split, i)] == BitChar(b.bits[i])
    {
      RenderAt(b, split, i);
    }
    RenderSpaces(b);
  }

  /** Extending a prefix by the next element keeps it a prefix. */
  lemma PrefixGrows(full: string, s: string, c: char)
    requires |s| < |full| && s == full[..|s|] && full[|s|] == c
    ensures s + [c] == full[..|s| + 1]
  {
  }

  /** The test `display` uses to place a space: after elements 7, 15 and 23. */
  lemma SpaceAfter(idx: nat)
    requires idx < 32
    ensures (idx % 8 == 7 && idx % 32 != 31) <==> (idx == 7 || idx == 15 || idx == 23)
  {
  }

  /** One step of `display`: writing element `idx`, and the space after it
      when one is due, extends a prefix of the rendering to a longer one. */
  lemma DisplayStep(b: BitCard, split: bool, idx: nat, s: string)
    requires idx < 32 && |s| == Written(split, idx)
    requires s == Render(b, split)[..|s|]
    ensures var t := s + [BitChar(b.bits[idx])] + (if split && idx % 8 == 7 && idx % 32 != 31 then " " else "");
      |t| == Written(split, idx + 1) && t == Render(b, split)[..|t|]
  {
    var full := Render(b, split);
    RenderAt(b, split, idx);
    SpaceAfter(idx);
    PrefixGrows(full, s, BitChar(b.bits[idx]));
    if split && idx % 8 == 7 && idx % 32 != 31 {
      RenderSpaces(b);
      PrefixGrows(full, s + [BitChar(b.bits[idx])], ' ');
    }
  }

  /** `display`: walks the 32 elements in order, pushing '1' or '0' and, when
      `split`, a space after an element with `idx % 8 == 7` other than the
      last. */
  method Display(b: BitCard, split: bool) returns (s: string)
    ensures s == Render(b, split)
  {
    s := "";
    var idx := 0;
    while idx < 32
      invariant 0 <= idx <= 32
      invariant |s| == Written(split, idx)
      invariant s == Render(b, split)[..|s|]
    {
      DisplayStep(b, split, idx, s);
      s := s + [if b.bits[idx] then '1' else '0'];
      if split && idx % 8 == 7 && idx % 32 != 31 {
        s := s + " ";
      }
      idx := idx + 1;
    }
  }

  // ---------------------------------------------------------------------------
  // The worked examples of the layout

  /** Renders a word given byte by byte. */
  lemma RenderBytes(b: BitCard, d0: string, d1: string, d2: string, d3: string)
    requires ByteDigits(b, 0) == d0 && ByteDigits(b, 1) == d1
    requires ByteDigits(b, 2) == d2 && ByteDigits(b, 3) == d3
    ensures Render(b, true) == d0 + " " + d1 + " " + d2 + " " + d3
  {
  }

  /** Each setter alone on a blank word leaves every element outside its own
      field clear. */
  lemma SettersAlone(c: Card)
    requires Fits(c)
    ensures SetRank(Default(), c).bits == Zeros(20) + StoreBe(c.rank.weight, 4) + Zeros(8)
    ensures SetRankFlag(Default(), c).bits == Zeros(3) + FlagField(c.rank.weight) + Zeros(16)
    ensures SetRankPrime(Default(), c).bits == Zeros(26) + StoreBe(c.rank.prime, 6)
    ensures SetSuit(Default(), c).bits == Zeros(16) + SuitField(c.suit) + Zeros(12)
  {
    Pow2Widths();
    assert SetRank(Default(), c).bits == Zeros(20) + StoreBe(c.rank.weight, 4) + Zeros(8);
    assert SetRankFlag(Default(), c).bits == Zeros(3) + FlagField(c.rank.weight) + Zeros(16);
    assert SetRankPrime(Default(), c).bits == Zeros(26) + StoreBe(c.rank.prime, 6);
    assert SetSuit(Default(), c).bits == Zeros(16) + SuitField(c.suit) + Zeros(12);
  }

  /** The four bytes of a word laid out as the encoder lays it out. */
  lemma LayoutBytes(s: seq<bool>, flag: seq<bool>, suit: seq<bool>, weight: seq<bool>, prime: seq<bool>)
    requires |flag| == 13 && |suit| == 4 && |weight| == 4 && |prime| == 6
    requires s == Zeros(3) + flag + suit + weight + Zeros(2) + prime
    ensures s[0..8] == Zeros(3) + flag[..5] && s[8..16] == flag[5..]
    ensures s[16..24] == suit + weight && s[24..32] == Zeros(2) + prime
  {
  }

  /** Byte `k` spelled from its eight elements. */
  lemma ByteSpells(b: BitCard, k: nat, x: seq<bool>, d: string)
    requires k < 4 && |x| == 8 && b.bits[8 * k..8 * k + 8] == x
    requires d == [BitChar(x[0]), BitChar(x[1]), BitChar(x[2]), BitChar(x[3]),
                   BitChar(x[4]), BitChar(x[5]), BitChar(x[6]), BitChar(x[7])]
    ensures ByteDigits(b, k) == d
  {
    assert forall j :: 0 <= j < 8 ==> b.bits[8 * k + j] == x[j];
  }

  const KING_OF_DIAMONDS: Card := Card(Rank(KING, 37), DIAMONDS)
  const ACE_OF_SPADES: Card := Card(Rank(ACE, 41), SPADES)

  /** The King of Diamonds fields: flag at element 4, Diamonds at 17,
      weight 11 = 1011, prime 37 = 100101. */
  lemma KingOfDiamondsFields()
    ensures KING_OF_DIAMONDS.IsValid() && Fits(KING_OF_DIAMONDS)
    ensures FlagField(KING) == OneHot(13, 1) && SuitField(DIAMONDS) == OneHot(4, 1)
    ensures Zeros(3) + OneHot(13, 1)[..5] == [false, false, false, false, true, false, false, false]
    ensures OneHot(13, 1)[5..] == [false, false, false, false, false, false, false, false]
    ensures OneHot(4, 1) + StoreBe(11, 4) == [false, true, false, false, true, false, true, true]
    ensures Zeros(2) + StoreBe(37, 6) == [false, false, true, false, false, true, false, true]
  {
    assert StoreBe(11, 4) == [true, false, true, true];
    assert StoreBe(37, 6) == [true, false, false, true, false, true];
  }

  lemma KingOfDiamondsBytes(b: BitCard)
    requires KING_OF_DIAMONDS.IsValid() && Fits(KING_OF_DIAMONDS)
    requires b == NewFromCard(KING_OF_DIAMONDS)
    ensures b.bits[0..8] == [false, false, false, false, true, false, false, false]
    ensures b.bits[8..16] == [false, false, false, false, false, false, false, false]
    ensures b.bits[16..24] == [false, true, false, false, true, false, true, true]
    ensures b.bits[24..32] == [false, false, true, false, false, true, false, true]
  {
    KingOfDiamondsFields();
    NewFromCardLayout(KING_OF_DIAMONDS);
    LayoutBytes(b.bits, OneHot(13, 1), OneHot(4, 1), StoreBe(11, 4), StoreBe(37, 6));
  }

  lemma KingOfDiamondsDigits(b: BitCard)
    requires b.bits[0..8] == [false, false, false, false, true, false, false, false]
    requires b.bits[8..16] == [false, false, false, false, false, false, false, false]
    requires b.bits[16..24] == [false, true, false, false, true, false, true, true]
    requires b.bits[24..32] == [false, false, true, false, false, true, false, true]
    ensures Render(b, true) == "00001000 00000000 01001011 00100101"
  {
    ByteSpells(b, 0, [false, false, false, false, true, false, false, false], "00001000");
    ByteSpells(b, 1, [false, false, false, false, false, false, false, false], "00000000");
    ByteSpells(b, 2, [false, true, false, false, true, false, true, true], "01001011");
    ByteSpells(b, 3, [false, false, true, false, false, true, false, true], "00100101");
    RenderBytes(b, ByteDigits(b, 0), ByteDigits(b, 1), ByteDigits(b, 2), ByteDigits(b, 3));
    KingOfDiamondsString(ByteDigits(b, 0), ByteDigits(b, 1), ByteDigits(b, 2), ByteDigits(b, 3));
  }

  lemma KingOfDiamondsString(d0: string, d1: string, d2: string, d3: string)
    requires d0 == "00001000" && d1 == "00000000" && d2 == "01001011" && d3 == "00100101"
    ensures d0 + " " + d1 + " " + d2 + " " + d3 == "00001000 00000000 01001011 00100101"
  {
  }

  /** King of Diamonds encodes as `00001000 00000000 01001011 00100101`. */
  lemma KingOfDiamondsRendering()
    ensures KING_OF_DIAMONDS.IsValid() && Fits(KING_OF_DIAMONDS)
    ensures Render(NewFromCard(KING_OF_DIAMONDS), true) == "00001000 00000000 01001011 00100101"
  {
    KingOfDiamondsFields();
    KingOfDiamondsBytes(NewFromCard(KING_OF_DIAMONDS));
    KingOfDiamondsDigits(NewFromCard(KING_OF_DIAMONDS));
  }

  /** The Ace of Spades fields: flag at element 3, Spades at 19, weight
      12 = 1100, prime 41 = 101001. */
  lemma AceOfSpadesFields()
    ensures ACE_OF_SPADES.IsValid() && Fits(ACE_OF_SPADES)
    ensures FlagField(ACE) == OneHot(13, 0) && SuitField(SPADES) == OneHot(4, 3)
    ensures Zeros(3) + OneHot(13, 0)[..5] == [false, false, false, true, false, false, false, false]
    ensures OneHot(13, 0)[5..] == [false, false, false, false, false, false, false, false]
    ensures OneHot(4, 3) + StoreBe(12, 4) == [false, false, false, true, true, true, false, false]
    ensures Zeros(2) + StoreBe(41, 6) == [false, false, true, false, true, false, false, true]
  {
    assert StoreBe(12, 4) == [true, true, false, false];
    assert StoreBe(41, 6) == [true, false, true, false, false, true];
  }

  lemma AceOfSpadesBytes(b: BitCard)
    requires ACE_OF_SPADES.IsValid() && Fits(ACE_OF_SPADES)
    requires b == NewFromCard(ACE_OF_SPADES)
    ensures b.bits[0..8] == [false, false, false, true, false, false, false, false]
    ensures b.bits[8..16] == [false, false, false, false, false, false, false, false]
    ensures b.bits[16..24] == [false, false, false, true, true, true, false, false]
    ensures b.bits[24..32] == [false, false, true, false, true, false, false, true]
  {
    AceOfSpadesFields();
    NewFromCardLayout(ACE_OF_SPADES);
    LayoutBytes(b.bits, OneHot(13, 0), OneHot(4, 3), StoreBe(12, 4), StoreBe(41, 6));
  }

  lemma AceOfSpadesDigits(b: BitCard)
    requires b.bits[0..8] == [false, false, false, true, false, false, false, false]
    requires b.bits[8..16] == [false, false, false, false, false, false, false, false]
    requires b.bits[16..24] == [false, false, false, true, true, true, false, false]
    requires b.bits[24..32] == [false, false, true, false, true, false, false, true]
    ensures Render(b, true) == "00010000 00000000 00011100 00101001"
  {
    ByteSpells(b, 0, [false, false, false, true, false, false, false, false], "00010000");
    ByteSpells(b, 1, [false, false, false, false, false, false, false, false], "00000000");
    ByteSpells(b, 2, [false, false, false, true, true, true, false, false], "00011100");
    ByteSpells(b, 3, [false, false, true, false, true, false, false, true], "00101001");
    RenderBytes(b, ByteDigits(b, 0), ByteDigits(b, 1), ByteDigits(b, 2), ByteDigits(b, 3));
    AceOfSpadesString(ByteDigits(b, 0), ByteDigits(b, 1), ByteDigits(b, 2), ByteDigits(b, 3));
  }

  lemma AceOfSpadesString(d0: string, d1: string, d2: string, d3: string)
    requires d0 == "00010000" && d1 == "00000000" && d2 == "00011100" && d3 == "00101001"
    ensures d0 + " " + d1 + " " + d2 + " " + d3 == "00010000 00000000 00011100 00101001"
  {
  }

  /** The integer 268442665 is the Ace of Spades word, and it renders as
      `00010000 00000000 00011100 00101001`. */
  lemma AceOfSpadesFromInteger()
    ensures ACE_OF_SPADES.IsValid() && Fits(ACE_OF_SPADES)
    ensures NewFromU64(268442665) == NewFromCard(ACE_OF_SPADES)
    ensures Render(NewFromU64(268442665), true) == "00010000 00000000 00011100 00101001"
  {
    AceOfSpadesFields();
    NewFromCardValue(ACE_OF_SPADES);
    Pow2Add(16, 12);
    Pow2Widths();
    LoadBeInjective(NewFromU64(268442665).bits, NewFromCard(ACE_OF_SPADES).bits);
    AceOfSpadesBytes(NewFromCard(ACE_OF_SPADES));
    AceOfSpadesDigits(NewFromCard(ACE_OF_SPADES));
  }
}
