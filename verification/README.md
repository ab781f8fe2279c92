# Cactus Kev card words

A model of the packed 32-bit "Cactus Kev" card encoding of the poker code, in
its two implementations:

- `BitCard` (`bit_card.dfy`), a 32-element bit array, most significant bit
  first (element `i` is word bit `31 - i`). It is built by four field setters
  on a blank word, decoded by `get_rank` and `get_suit_slice`, checked for
  blankness by `is_blank`, built from an integer by `new_from_u64` or from a deck index by
  `new_from_index`, and rendered by `display`;
- `VSupCard::card_to_deck_number` (`vsup_card.dfy`), which builds the same word
  with `u32` shifts and ORs (modelled on `bv32`), together with the
  `short_string` names and the two-character `Display`.

`agreement.dfy` proves the two encoders agree on all 52 cards. `ranks.dfy`
holds the rank, suit and card records and the prime table. `bits.dfy` holds
the big-endian `store_be` / `load_be` view of a run of bits.

The word is

    xxxbbbbb bbbbbbbb cdhsrrrr xxpppppp

Its fields:

- `b`: one-hot rank flag, Ace at word bit 28 down to Two at bit 16;
- `cdhs`: one-hot suit;
- `r`: rank weight, Two = 0 through Ace = 12;
- `p`: rank prime, 2, 3, 5, ..., 41.

The suit bits follow the code. Spades is word bit 12 (0x1000, element 19),
Hearts is bit 13, Diamonds is bit 14 and Clubs is bit 15 (0x8000, element 16).
This matches the layout comment `cdhsrrrr` (src/games/poker/bit_card.rs:156,
src/games/poker/alt/vsup_card.rs:79), which puts Clubs at bit 15 and Spades at
bit 12, and it is what `set_suit`, `card_to_deck_number` and the
`get_suit_slice` tests do.

## Model

| member | source | states |
|---|---|---|
| Ranks.RankOf | src/games/poker/bit_card.rs:159-160 | a rank of weight 0..12 carries the table prime for that weight |
| Ranks.PrimeTable | src/games/poker/bit_card.rs:159 | the rank primes are exactly the primes below 42, strictly increasing and each below 64, so they fit the 6-bit field |
| Ranks.DefaultRankIsNotValid | src/games/poker/bit_card.rs:87 | the blank rank `get_rank` falls back to differs from all thirteen real ranks |
| Bits.LoadStore | src/games/poker/bit_card.rs:110 | reading a field back big-endian gives the value `store_be` wrote |
| Bits.StoreLoad | src/games/poker/bit_card.rs:110 | a big-endian field is determined by the value it spells |
| Bits.LoadBeConcat | src/games/poker/bit_card.rs:153-162 | a concatenation of fields spells the upper field shifted past the lower one, plus the lower |
| Bits.LoadBeOneHot | src/games/poker/bit_card.rs:113-130 | a single set bit at element `k` of `n` is worth `2^(n-1-k)` |
| BitCards.Default | src/games/poker/bit_card.rs:147-151 | the default word is blank |
| BitCards.StoreField | src/games/poker/bit_card.rs:110 | `store_be` on a sub-slice writes the value into that slice and leaves every other element unchanged |
| BitCards.SetBit | src/games/poker/bit_card.rs:115-127 | `set(i, true)` sets element `i` and leaves every other element unchanged |
| BitCards.SetRank | src/games/poker/bit_card.rs:109-111 | the weight is stored big-endian in elements 20..24 and nothing else changes |
| BitCards.SetRankFlag | src/games/poker/bit_card.rs:113-130 | weight `w` <= 12 sets element `15 - w` (Ace 3 through Two 15), any other weight sets nothing, and no other element changes |
| BitCards.SetRankPrime | src/games/poker/bit_card.rs:132-134 | the prime is stored big-endian in elements 26..32 and nothing else changes |
| BitCards.SetSuit | src/games/poker/bit_card.rs:136-144 | suit weight 4, 3, 2, 1 sets element 19, 18, 17, 16, any other weight sets nothing, and no other element changes |
| BitCards.NewFromCard | src/games/poker/bit_card.rs:22-29 | the encoded card holds the weight in 20..24, the prime in 26..32, the one-hot flag in 3..16 and the one-hot suit in 16..20, with 0..3 and 24..26 clear |
| BitCards.SettersCommute | src/games/poker/bit_card.rs:109-144 | on any word the four setters commute pairwise, because they write disjoint elements |
| BitCards.SettersAlone | src/games/poker/bit_card.rs:289-358 | each setter alone on a blank word leaves every element outside its own field clear |
| BitCards.NewFromCardLayout | src/games/poker/bit_card.rs:153-162 | the encoded word is, from the top: 3 clear bits, flag, suit, weight, 2 clear bits, prime |
| BitCards.NewFromCardValue | src/games/poker/bit_card.rs:153-162 | the encoded word is the integer `2^(16+weight) + 2^(16-suit weight) + 256*weight + prime` |
| BitCards.NewFromCardInjective | src/games/poker/bit_card.rs:22-29 | cards with real suits that encode to the same word are the same card |
| BitCards.NewFromIndex | src/games/poker/bit_card.rs:34-42 | `Err(InvalidCard)` exactly when the looked-up card is invalid, otherwise `Ok` of its encoding, whose rank and suit read back |
| BitCards.UnknownIndexRejected | src/games/poker/bit_card.rs:222-224 | an index the deck lookup answers with the blank card is rejected with `InvalidCard` |
| BitCards.NewFromU64 | src/games/poker/bit_card.rs:45-49 | for `n < 2^32`, the word read back big-endian is `n` |
| BitCards.NewFromU64Onto | src/games/poker/bit_card.rs:45-49 | every word is `new_from_u64` of its own integer |
| BitCards.GetRankBitsSlice | src/games/poker/bit_card.rs:92-94 | the slice is elements 0..16 of the word |
| BitCards.GetSuitSlice | src/games/poker/bit_card.rs:98-100 | the slice is elements 16..20 of the word |
| BitCards.MatchRank | src/games/poker/bit_card.rs:73-88 | trying the patterns from Ace down gives the rank whose one-hot pattern the upper bits equal, or the blank rank exactly when none matches |
| BitCards.GetRank | src/games/poker/bit_card.rs:72-89 | a real rank only when the upper 16 bits equal its one-hot pattern; the blank rank exactly when they equal none of the thirteen |
| BitCards.RankRoundTrip | src/games/poker/bit_card.rs:237-251 | decoding the rank of an encoded card gives the card's rank back, for all thirteen ranks |
| BitCards.GetRankRejects | src/games/poker/bit_card.rs:87 | a set bit among elements 0..3, two set flags, or no set flag decode to the blank rank |
| BitCards.SuitFieldOneHot | src/games/poker/bit_card.rs:136-144 | the suit field is `0001` Spades, `0010` Hearts, `0100` Diamonds, `1000` Clubs, and has a bit set exactly for a real suit |
| BitCards.SuitSliceOfCard | src/games/poker/bit_card.rs:263-275 | `get_suit_slice` of an encoded card is its one-hot suit field: `0001` Spades through `1000` Clubs |
| BitCards.CountZeros | src/games/poker/bit_card.rs:104 | the count of clear elements equals the length exactly when every element is clear |
| BitCards.IsBlank | src/games/poker/bit_card.rs:102-105 | `is_blank` holds exactly when all 32 elements are clear |
| BitCards.EncodedCardIsNotBlank | src/games/poker/bit_card.rs:277-286 | no encoded card is blank |
| BitCards.Render | src/games/poker/bit_card.rs:58-69 | the rendering is 35 characters when split and 32 otherwise |
| BitCards.RenderPositions | src/games/poker/bit_card.rs:53-69 | element `i` appears as '0' or '1' at `i`, or at `i` plus the number of earlier byte gaps when split, and the spaces are at 8, 17 and 26 |
| BitCards.SpaceAfter | src/games/poker/bit_card.rs:64 | the space test `idx % 8 == 7 && idx % 32 != 31` holds exactly after elements 7, 15 and 23 |
| BitCards.DisplayStep | src/games/poker/bit_card.rs:62-66 | one pass of the loop extends a prefix of the rendering to a longer prefix |
| BitCards.Display | src/games/poker/bit_card.rs:58-69 | the loop builds exactly the rendering |
| BitCards.KingOfDiamondsRendering | src/games/poker/bit_card.rs:189-197 | King of Diamonds renders as `00001000 00000000 01001011 00100101` |
| BitCards.AceOfSpadesFromInteger | src/games/poker/bit_card.rs:226-234 | `new_from_u64(268442665)` is the Ace of Spades and renders as `00010000 00000000 00011100 00101001` |
| VSupCards.ValueBits | src/games/poker/alt/vsup_card.rs:88-102 | the `u32` weight of a value is below 13 and is the value's position in the declaration |
| VSupCards.ValueWeight | src/games/poker/alt/vsup_card.rs:88-102 | the same weight as an integer indexes the declaration at that value |
| VSupCards.ValueChar | src/games/poker/alt/vsup_card.rs:44-60 | a value's short name is one character that the parser reads back as that value |
| VSupCards.SuitChar | src/games/poker/alt/vsup_card.rs:15-22 | a suit's short name is one character that the parser reads back as that suit |
| VSupCards.ShortNamesInvert | src/games/poker/alt/vsup_card.rs:15-60 | every character the parser accepts is the short name of what it reads |
| VSupCards.WeightFollowsDeclaration | src/games/poker/alt/vsup_card.rs:25-41 | the weight map sends the i-th declared value to i, so it is strictly increasing in the derived order |
| VSupCards.PrimeBits | src/games/poker/alt/vsup_card.rs:104 | the prime of a weight is the table prime, between 2 and 63 |
| VSupCards.SuitBits | src/games/poker/alt/vsup_card.rs:105-110 | each suit contributes one of the four one-bit constants 0x1000, 0x2000, 0x4000, 0x8000 |
| VSupCards.SuitNibble | src/games/poker/alt/vsup_card.rs:79-84 | the `cdhs` nibble of the layout has exactly one bit set; `DeckNumberFields` shows it is the suit constant shifted down twelve |
| VSupCards.FlagBits | src/games/poker/alt/vsup_card.rs:111 | the rank flag is a single set bit within bits 16..28 |
| VSupCards.CardToDeckNumber | src/games/poker/alt/vsup_card.rs:87-114 | the packed word is never zero |
| VSupCards.DeckNumberFields | src/games/poker/alt/vsup_card.rs:104-113 | the low 6 bits are the prime with bits 6..7 clear; bits 8..11 hold the weight; bits 12..15 hold 1, 2, 4, 8 for Spades, Hearts, Diamonds, Clubs; bits 16..28 hold `1 << weight`; bits 29..31 are clear |
| VSupCards.FieldsDisjoint | src/games/poker/alt/vsup_card.rs:104-113 | the four OR'd fields are pairwise disjoint, so the OR equals their sum |
| VSupCards.DeckNumberInjective | src/games/poker/alt/vsup_card.rs:87-114 | distinct cards pack to distinct words |
| VSupCards.Display | src/games/poker/alt/vsup_card.rs:118-127 | the short name is two characters |
| VSupCards.DisplayRoundTrip | src/games/poker/alt/vsup_card.rs:15-22 | the value and suit short names read back to the card; a string reads back to a card exactly when it is that card's short name |
| VSupCards.DisplayInjective | src/games/poker/alt/vsup_card.rs:44-60 | the 52 short names are distinct |
| Agreement.ToCard | src/games/poker/bit_card.rs:137-141 | a `VSupCard` names a valid card of the same weight, with suit weight 4, 3, 2, 1 for Spades, Hearts, Diamonds, Clubs |
| Agreement.ValueWeightsAreRankWeights | src/games/poker/alt/vsup_card.rs:88-102 | the weights `card_to_deck_number` assigns Two .. Ace are the crate's rank weights `TWO` .. `ACE` |
| Agreement.DeckNumberValue | src/games/poker/alt/vsup_card.rs:111-113 | the `u32` read as an integer is `2^(16+weight) + 2^(16-suit weight) + 256*weight + prime` |
| Agreement.DeckNumberAgrees | src/games/poker/alt/vsup_card.rs:87-114 | `card_to_deck_number` is the big-endian integer of `BitCard::new_from_card` for the same card |
| Agreement.AceOfSpadesDeckNumber | src/games/poker/bit_card.rs:228-233 | the Ace of Spades packs to 268442665 |

## Left out

- `src/cards/packs/mod.rs`, `src/cards/packs/standard52.rs` and `src/cards/dealer.rs`: trait signatures, deck assembly through code that is not part of this model, and an unimplemented shuffler. The model quantifies over every value and suit directly.
- `Standard52::card_from_index` is not part of this model. `BitCards.NewFromIndex` takes the lookup as a function parameter. `Card::is_valid` is modelled as a rank from the prime table and a suit weight in 1..4. `Rank::default()` is modelled as weight 0 with prime 0.
- `lookups::PRIMES` is not part of this model. It is taken to be the rank prime table 2, 3, 5, ..., 41, as the layout comments state.
- `get_rank` compares the `{:b}` formatting of the upper 16 bits against thirteen strings. The model compares the 16 bits against the thirteen one-hot patterns these strings spell.
- The `Display` impl of `BitCard` (`bit_card.rs` 164-175) is left out. It only wraps `display(true)` and a legend in `debug_list` formatting.
- `BitCard::new` and `FiveBitCards` are left out: a plain wrapper and an unused type.
- The test `new_from_card__complete` compares against the `{:032b}` formatting of `Card`, which is not part of this model.
- BitCards.NewFromU64: requires `n < 2^32`. The `bitvec` truncation of wider integers is not modelled.
- BitCards.SetRank: requires a weight below 16, which every real rank meets. A wider weight would be truncated by `store_be`, which is not modelled.
- BitCards.SetRankPrime: requires a prime below 64, which every table prime meets. A wider prime would be truncated by `store_be`, which is not modelled.
- BitCards.NewFromCard: requires `Fits(c)`, a weight below 16 and a prime below 64, which every valid card meets. It inherits the two bounds above, so the truncation of wider fields is not modelled.
- BitCards.StoreField: requires the value to fit the field, `v < 2^(hi - lo)`. The truncation `store_be` applies to a wider value is not modelled.
- BitCards.SettersAlone: states the isolated-setter tests as field contents rather than as their rendered strings. The rendering of any word is covered by BitCards.RenderPositions and BitCards.Display.
