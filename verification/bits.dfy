/** Big-endian bit slices: the `store_be` / `load_be` view of a run of bits in
    which the first element is the most significant. A `BitCard` keeps its
    word in this order (element 0 is word bit 31), and its fields are written
    with `store_be`. */
module Bits {

  function Pow2(n: nat): (r: nat)
    ensures r >= 1
  {
    if n == 0 then 1 else 2 * Pow2(n - 1)
  }

  /** The widths the packed word uses. */
  lemma Pow2Widths()
    ensures Pow2(2) == 4 && Pow2(4) == 16 && Pow2(6) == 64
    ensures Pow2(12) == 4096 && Pow2(16) == 65536 && Pow2(32) == 0x1_0000_0000
  {
    assert Pow2(4) == 16;
    assert Pow2(8) == 256;
    assert Pow2(12) == 4096;
    assert Pow2(16) == 65536;
    assert Pow2(20) == 0x10_0000;
    assert Pow2(24) == 0x100_0000;
    assert Pow2(28) == 0x1000_0000;
  }

  lemma {:induction false} Pow2Add(a: nat, b: nat)
    ensures Pow2(a + b) == Pow2(a) * Pow2(b)
  {
    if a > 0 {
      Pow2Add(a - 1, b);
      assert Pow2(a + b) == 2 * Pow2(a - 1 + b);
    }
  }

  function BitValue(b: bool): nat {
    if b then 1 else 0
  }

  /** The unsigned integer a slice spells, first element most significant. */
  function LoadBe(s: seq<bool>): (v: nat)
    ensures v < Pow2(|s|)
  {
    if |s| == 0 then 0 else 2 * LoadBe(s[..|s| - 1]) + BitValue(s[|s| - 1])
  }

  /** The `n`-bit big-endian spelling of `v`, which must fit in `n` bits. */
  function StoreBe(v: nat, n: nat): (s: seq<bool>)
    requires v < Pow2(n)
    ensures |s| == n
  {
    if n == 0 then [] else StoreBe(v / 2, n - 1) + [v % 2 == 1]
  }

  /** A run of `n` clear bits. */
  function Zeros(n: nat): (s: seq<bool>)
    ensures |s| == n && forall i :: 0 <= i < n ==> !s[i]
  {
    seq(n, i => false)
  }

  /** A run of `n` bits with only element `k` set (none when `k >= n`). */
  function OneHot(n: nat, k: nat): (s: seq<bool>)
    ensures |s| == n && forall i :: 0 <= i < n ==> (s[i] <==> i == k)
  {
    seq(n, i => i == k)
  }

  /** Reading back what was stored gives the stored value. */
  lemma {:induction false} LoadStore(v: nat, n: nat)
    requires v < Pow2(n)
    ensures LoadBe(StoreBe(v, n)) == v
  {
    if n > 0 {
      var s := StoreBe(v, n);
      assert s[..n - 1] == StoreBe(v / 2, n - 1);
      LoadStore(v / 2, n - 1);
    }
  }

  /** Storing what was read back gives the slice itself. */
  lemma {:induction false} StoreLoad(s: seq<bool>)
    ensures StoreBe(LoadBe(s), |s|) == s
  {
    if |s| > 0 {
      var n := |s|;
      var v := LoadBe(s);
      assert v / 2 == LoadBe(s[..n - 1]);
      StoreLoad(s[..n - 1]);
      assert s == s[..n - 1] + [s[n - 1]];
    }
  }

  /** Two slices of one length that spell the same integer are the same slice. */
  lemma LoadBeInjective(a: seq<bool>, b: seq<bool>)
    requires |a| == |b| && LoadBe(a) == LoadBe(b)
    ensures a == b
  {
    StoreLoad(a);
    StoreLoad(b);
  }

  /** The bits of `b` sit below those of `a`. */
  lemma {:induction false} LoadBeConcat(a: seq<bool>, b: seq<bool>)
    ensures LoadBe(a + b) == LoadBe(a) * Pow2(|b|) + LoadBe(b)
    decreases |b|
  {
    if |b| == 0 {
      assert a + b == a;
    } else {
      var n := |b|;
      assert (a + b)[..|a + b| - 1] == a + b[..n - 1];
      LoadBeConcat(a, b[..n - 1]);
      var x, p, y := LoadBe(a), Pow2(n - 1), LoadBe(b[..n - 1]);
      assert (a + b)[|a + b| - 1] == b[n - 1];
      assert LoadBe(a + b) == 2 * (x * p + y) + BitValue(b[n - 1]);
      ShiftOneBit(x, p, y, BitValue(b[n - 1]));
    }
  }

  lemma ShiftOneBit(x: nat, p: nat, y: nat, c: nat)
    ensures 2 * (x * p + y) + c == x * (2 * p) + (2 * y + c)
  {
  }

  lemma {:induction false} LoadBeZeros(n: nat)
    ensures LoadBe(Zeros(n)) == 0
  {
    if n > 0 {
      assert Zeros(n)[..n - 1] == Zeros(n - 1);
      LoadBeZeros(n - 1);
    }
  }

  /** A single set bit at element `k` of `n` weighs `2^(n-1-k)`. */
  lemma LoadBeOneHot(n: nat, k: nat)
    requires k < n
    ensures LoadBe(OneHot(n, k)) == Pow2(n - 1 - k)
  {
    assert OneHot(n, k) == Zeros(k) + [true] + Zeros(n - 1 - k);
    LoadBeConcat(Zeros(k) + [true], Zeros(n - 1 - k));
    LoadBeConcat(Zeros(k), [true]);
    LoadBeZeros(k);
    LoadBeZeros(n - 1 - k);
  }
}
