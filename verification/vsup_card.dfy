/** `VSupCard`: a card as a (value, suit) pair of enums, and the
    `card_to_deck_number` conversion that packs it into the same 32-bit
    "Cactus Kev" word with shifts and ORs on a `u32`:

      xxxbbbbb bbbbbbbb cdhsrrrr xxpppppp

    `p` is the prime of the value, `r` its weight, `cdhs` the suit (Spades
    0x1000 .. Clubs 0x8000) and `b` the one bit `1 << (16 + weight)`. */
module VSupCards {
  import opened Ranks

  /** Declared Spades, Hearts, Diamonds, Clubs; the derived order follows. */
  datatype VSupSuit = Spades | Hearts | Diamonds | Clubs

  /** Declared Two .. Ace; the derived order follows. */
  datatype VSupValue = Two | Three | Four | Five | Six | Seven | Eight | Nine | Ten | Jack | Queen | King | Ace

  datatype VSupCard = VSupCard(value: VSupValue, suit: VSupSuit)

  datatype Option<T> = None | Some(value: T)

  /** The values in declaration order, the order the derived `Ord` uses. */
  const VALUES: seq<VSupValue> := [Two, Three, Four, Five, Six, Seven, Eight, Nine, Ten, Jack, Queen, King, Ace]

  /** The derived `Ord` on values: earlier in the declaration is smaller. */
  predicate ValueBefore(a: VSupValue, b: VSupValue) {
    exists i, j :: 0 <= i < j < |VALUES| && VALUES[i] == a && VALUES[j] == b
  }

  // ---------------------------------------------------------------------------
  // The value weight

  /** The weight `card_to_deck_number` assigns a value, as a `u32`: the
      value's position in the declaration. */
  function ValueBits(v: VSupValue): (w: bv32)
    ensures w < 13 && VALUES[w as int] == v
  {
    match v
    case Two => 0
    case Three => 1
    case Four => 2
    case Five => 3
    case Six => 4
    case Seven => 5
    case Eight => 6
    case Nine => 7
    case Ten => 8
    case Jack => 9
    case Queen => 10
    case King => 11
    case Ace => 12
  }

  /** The weight as an integer. */
  function ValueWeight(v: VSupValue): (w: nat)
    ensures w < |VALUES| && VALUES[w] == v
  {
    ValueBits(v) as int
  }

  lemma ValuesDistinct()
    ensures forall i, j :: 0 <= i < j < |VALUES| ==> VALUES[i] != VALUES[j]
  {
  }

  /** The weight map is the declaration index, so it is strictly increasing
      in the derived order and a bijection onto 0..12. */
  lemma {:induction false} WeightFollowsDeclaration()
    ensures forall i :: 0 <= i < |VALUES| ==> ValueWeight(VALUES[i]) == i
    ensures forall a, b :: ValueBefore(a, b) <==> ValueWeight(a) < ValueWeight(b)
  {
    ValuesDistinct();
    forall a, b | ValueWeight(a) < ValueWeight(b)
      ensures ValueBefore(a, b)
    {
      assert VALUES[ValueWeight(a)] == a && VALUES[ValueWeight(b)] == b;
    }
  }

  /** The prime of a weight, from the rank prime table, as a `u32`. */
  function PrimeBits(w: bv32): (p: bv32)
    requires w < 13
    ensures 2 <= p < 64 && p as int == PRIMES[w as int]
  {
    PrimeTable();
    PRIMES[w as int] as bv32
  }

  /** The rank flag `1 << (16 + weight)`: a single set bit, somewhere in the
      thirteen bits 16..28. */
  function FlagBits(w: bv32): (b: bv32)
    requires w < 13
    ensures b != 0 && b & (b - 1) == 0
    ensures 0x1_0000 <= b <= 0x1000_0000
  {
    1 << (16 + w)
  }

  /** The suit constant `card_to_deck_number` ORs in. */
  function SuitBits(s: VSupSuit): (b: bv32)
    ensures b == 0x1000 || b == 0x2000 || b == 0x4000 || b == 0x8000
  {
    match s
    case Spades => 0x1000
    case Hearts => 0x2000
    case Diamonds => 0x4000
    case Clubs => 0x8000
  }

  /** The suit nibble a card carries at bits 12..15: one bit per suit, the
      lowest for Spades. */
  function SuitNibble(s: VSupSuit): (n: bv32)
    ensures n == 1 || n == 2 || n == 4 || n == 8
  {
    match s
    case Spades => 1
    case Hearts => 2
    case Diamonds => 4
    case Clubs => 8
  }

  // ---------------------------------------------------------------------------
  // card_to_deck_number

  /** `card_to_deck_number`: `prime | value << 8 | suit | 1 << (16 + value)`,
      with Rust's precedence (shifts before ORs). */
  function CardToDeckNumber(c: VSupCard): (r: bv32)
    ensures r != 0
  {
    var value := ValueBits(c.value);
    var prime := PrimeBits(value);
    var suit := SuitBits(c.suit);
    var bits := FlagBits(value);
    prime | (value << 8) | suit | bits
  }

  /** What each field of the packed word holds: the prime in bits 0..5 with
      bits 6..7 clear, the weight in bits 8..11, the one-hot suit in bits
      12..15, the one-hot rank flag `1 << weight` in bits 16..28, and nothing
      above. */
  lemma DeckNumberFields(c: VSupCard)
    ensures var r, w := CardToDeckNumber(c), ValueBits(c.value);
      r & 0x3F == PrimeBits(w) && r & 0xC0 == 0 &&
      (r >> 8) & 0xF == w &&
      (r >> 12) & 0xF == SuitNibble(c.suit) &&
      (r >> 16) & 0x1FFF == 1 << w &&
      r >> 29 == 0
  {
    match c.value {
      case Two => case Three => case Four => case Five => case Six => case Seven =>
      case Eight => case Nine => case Ten => case Jack => case Queen => case King => case Ace =>
    }
  }

  /** The four OR'd fields occupy disjoint bits, so the OR is their sum. */
  lemma FieldsDisjoint(c: VSupCard)
    ensures var value := ValueBits(c.value);
      var prime, shifted, suit, bits := PrimeBits(value), value << 8, SuitBits(c.suit), FlagBits(value);
      prime & shifted == 0 && prime & suit == 0 && prime & bits == 0 &&
      shifted & suit == 0 && shifted & bits == 0 && suit & bits == 0 &&
      CardToDeckNumber(c) == prime + shifted + suit + bits
  {
    match c.value {
      case Two => case Three => case Four => case Five => case Six => case Seven =>
      case Eight => case Nine => case Ten => case Jack => case Queen => case King => case Ace =>
    }
  }

  lemma ValueBitsInjective(a: VSupValue, b: VSupValue)
    requires ValueBits(a) == ValueBits(b)
    ensures a == b
  {
  }

  lemma SuitNibbleInjective(a: VSupSuit, b: VSupSuit)
    requires SuitNibble(a) == SuitNibble(b)
    ensures a == b
  {
  }

  /** Distinct cards pack to distinct words: the weight field gives the value
      back and the suit nibble gives the suit back. */
  lemma DeckNumberInjective(c1: VSupCard, c2: VSupCard)
    requires CardToDeckNumber(c1) == CardToDeckNumber(c2)
    ensures c1 == c2
  {
    DeckNumberFields(c1);
    DeckNumberFields(c2);
    ValueBitsInjective(c1.value, c2.value);
    SuitNibbleInjective(c1.suit, c2.suit);
  }

  // ---------------------------------------------------------------------------
  // Short names

  /** Reads a value's short name back: `None` for any other character. */
  function ValueOfChar(ch: char): (r: Option<VSupValue>)
    ensures r.Some? <==> ch in "23456789TJQKA"
  {
    if ch == '2' then Some(Two)
    else if ch == '3' then Some(Three)
    else if ch == '4' then Some(Four)
    else if ch == '5' then Some(Five)
    else if ch == '6' then Some(Six)
    else if ch == '7' then Some(Seven)
    else if ch == '8' then Some(Eight)
    else if ch == '9' then Some(Nine)
    else if ch == 'T' then Some(Ten)
    else if ch == 'J' then Some(Jack)
    else if ch == 'Q' then Some(Queen)
    else if ch == 'K' then Some(King)
    else if ch == 'A' then Some(Ace)
    else None
  }

  /** Reads a suit's short name back: `None` for any other character. */
  function SuitOfChar(ch: char): (r: Option<VSupSuit>)
    ensures r.Some? <==> ch in "shdc"
  {
    if ch == 's' then Some(Spades)
    else if ch == 'h' then Some(Hearts)
    else if ch == 'd' then Some(Diamonds)
    else if ch == 'c' then Some(Clubs)
    else None
  }

  /** `VSupValue::short_string`: a one-character name that reads back as the
      value. */
  function ValueChar(v: VSupValue): (r: char)
    ensures ValueOfChar(r) == Some(v)
  {
    match v
    case Two => '2'
    case Three => '3'
    case Four => '4'
    case Five => '5'
    case Six => '6'
    case Seven => '7'
    case Eight => '8'
    case Nine => '9'
    case Ten => 'T'
    case Jack => 'J'
    case Queen => 'Q'
    case King => 'K'
    case Ace => 'A'
  }

  /** `VSupSuit::short_string`: a one-character name that reads back as the
      suit. */
  function SuitChar(s: VSupSuit): (r: char)
    ensures SuitOfChar(r) == Some(s)
  {
    match s
    case Spades => 's'
    case Hearts => 'h'
    case Diamonds => 'd'
    case Clubs => 'c'
  }

  /** The other direction: a character that reads as a value or a suit is
      that value's or suit's short name. */
  lemma ShortNamesInvert(ch: char)
    ensures ValueOfChar(ch).Some? ==> ValueChar(ValueOfChar(ch).value) == ch
    ensures SuitOfChar(ch).Some? ==> SuitChar(SuitOfChar(ch).value) == ch
  {
  }

  /** `Display for VSupCard`: the value's short name, then the suit's. */
  function Display(c: VSupCard): (s: string)
    ensures |s| == 2
  {
    [ValueChar(c.value), SuitChar(c.suit)]
  }

  /** Reads a short name back; the inverse of `Display`. */
  function ParseShort(s: string): (r: Option<VSupCard>)
    ensures r.Some? ==> |s| == 2
  {
    if |s| != 2 then None
    else
      var v := ValueOfChar(s[0]);
      var u := SuitOfChar(s[1]);
      if v.Some? && u.Some? then Some(VSupCard(v.value, u.value)) else None
  }

  /** Parsing a short name gives the card back, and a string parses to a
      card exactly when it is that card's short name. */
  lemma DisplayRoundTrip(c: VSupCard, s: string)
    ensures ParseShort(Display(c)) == Some(c)
    ensures ParseShort(s) == Some(c) <==> s == Display(c)
  {
    if |s| == 2 {
      ShortNamesInvert(s[0]);
      ShortNamesInvert(s[1]);
    }
  }

  /** The 52 short names are distinct. */
  lemma DisplayInjective(c1: VSupCard, c2: VSupCard)
    requires Display(c1) == Display(c2)
    ensures c1 == c2
  {
    DisplayRoundTrip(c1, Display(c1));
    DisplayRoundTrip(c2, Display(c2));
  }
}
