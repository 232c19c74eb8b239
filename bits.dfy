/** Bit-level arithmetic behind the FFT tables: powers of two, numbers as
    little-endian bit strings, the reversal of the low bits of an index, the
    number of halvings that empties a number (a rounded-up base-2 logarithm
    of its successor), and the 32-bit mask-and-shift reversal network. */
module Bits {
  import opened Modular

  function Pow2(k: nat): (r: nat)
    ensures r >= 1
  {
    if k == 0 then 1 else 2 * Pow2(k - 1)
  }

  lemma {:induction false} Pow2Add(a: nat, b: nat)
    ensures Pow2(a + b) == Pow2(a) * Pow2(b)
    decreases a
  {
    if a > 0 {
      Pow2Add(a - 1, b);
    }
  }

  lemma Pow2StrictlyMonotone(a: nat, b: nat)
    requires a < b
    ensures Pow2(a) < Pow2(b)
  {
    Pow2Monotone(a + 1, b);
  }

  lemma {:induction false} Pow2Monotone(a: nat, b: nat)
    requires a <= b
    ensures Pow2(a) <= Pow2(b)
    decreases b
  {
    if a < b {
      Pow2Monotone(a, b - 1);
    }
  }

  /** The low `k` bits of `x`, least significant first. */
  function ToBits(x: nat, k: nat): (r: seq<bool>)
    ensures |r| == k
    decreases k
  {
    if k == 0 then [] else [x % 2 == 1] + ToBits(x / 2, k - 1)
  }

  /** The number a bit string spells, least significant bit first. */
  function FromBits(b: seq<bool>): (r: nat)
    ensures r < Pow2(|b|)
    decreases |b|
  {
    if b == [] then 0 else (if b[0] then 1 else 0) + 2 * FromBits(b[1..])
  }

  /** Below `2^k`, spelling out `k` bits and reading them back is the
      identity. */
  lemma {:induction false} FromToBits(x: nat, k: nat)
    requires x < Pow2(k)
    ensures FromBits(ToBits(x, k)) == x
    decreases k
  {
    if k > 0 {
      FromToBits(x / 2, k - 1);
      assert ToBits(x, k)[1..] == ToBits(x / 2, k - 1);
    }
  }

  /** Reading a bit string and spelling it out again is the identity. */
  lemma {:induction false} ToFromBits(b: seq<bool>)
    ensures ToBits(FromBits(b), |b|) == b
    decreases |b|
  {
    if b != [] {
      ToFromBits(b[1..]);
      var v := FromBits(b);
      assert v % 2 == 1 <==> b[0];
      assert v / 2 == FromBits(b[1..]);
    }
  }

  /** `x >> a`: `a` halvings. */
  function Shr(x: nat, a: nat): nat
    decreases a
  {
    if a == 0 then x else Shr(x / 2, a - 1)
  }

  /** The low `a + b` bits are the low `a` bits, then the low `b` bits of
      what is left after shifting those out. */
  lemma {:induction false} ToBitsSplit(x: nat, a: nat, b: nat)
    ensures ToBits(x, a + b) == ToBits(x, a) + ToBits(Shr(x, a), b)
    decreases a
  {
    if a > 0 {
      ToBitsSplit(x / 2, a - 1, b);
      assert ToBits(x, a + b) == [x % 2 == 1] + ToBits(x / 2, (a - 1) + b);
    }
  }

  /** Shifting out the bits of a low part leaves the high part. */
  lemma {:induction false} ShrFromBitsAppend(lo: seq<bool>, hi: seq<bool>)
    ensures Shr(FromBits(lo + hi), |lo|) == FromBits(hi)
    decreases |lo|
  {
    if lo != [] {
      assert (lo + hi)[1..] == lo[1..] + hi;
      ShrFromBitsAppend(lo[1..], hi);
      var v := FromBits(lo + hi);
      assert v / 2 == FromBits(lo[1..] + hi);
      assert Shr(v, |lo|) == Shr(v / 2, |lo[1..]|);
    } else {
      assert lo + hi == hi;
    }
  }

  function Reverse<T>(s: seq<T>): (r: seq<T>)
    ensures |r| == |s| && forall i :: 0 <= i < |s| ==> r[i] == s[|s| - 1 - i]
    decreases |s|
  {
    if s == [] then [] else Reverse(s[1..]) + [s[0]]
  }

  lemma ReverseReverse<T>(s: seq<T>)
    ensures Reverse(Reverse(s)) == s
  {
  }

  lemma ReverseAppend<T>(a: seq<T>, b: seq<T>)
    ensures Reverse(a + b) == Reverse(b) + Reverse(a)
  {
  }

  /** The low `k` bits of `x` in reverse order: bit 0 of `x` becomes bit
      `k - 1`, and the other `k - 1` bits are reversed below it. */
  function LowReverse(x: nat, k: nat): nat
  {
    RevInto(x, k, 0)
  }

  /** Shift the low `k` bits of `x`, lowest first, into `acc` from the
      right. */
  function RevInto(x: nat, k: nat, acc: nat): nat
    decreases k
  {
    if k == 0 then acc else RevInto(x / 2, k - 1, 2 * acc + x % 2)
  }

  /** What is already in the accumulator ends up `k` places higher. */
  lemma {:induction false} RevIntoShifts(x: nat, k: nat, acc: nat)
    ensures RevInto(x, k, acc) == acc * Pow2(k) + RevInto(x, k, 0)
    decreases k
  {
    if k > 0 {
      var b, p := x % 2, Pow2(k - 1);
      RevIntoShifts(x / 2, k - 1, 2 * acc + b);
      RevIntoShifts(x / 2, k - 1, b);
      assert Pow2(k) == 2 * p;
      ShiftInWeights(acc, b, p);
    }
  }

  lemma ShiftInWeights(acc: nat, b: nat, p: nat)
    ensures (2 * acc + b) * p == acc * (2 * p) + b * p
  {
  }

  /** Bit 0 of `x` becomes bit `k - 1` of the reversal, above the reversal
      of the other `k - 1` bits; the result fits in `k` bits. */
  lemma {:induction false} LowReverseStep(x: nat, k: nat)
    ensures k > 0 ==> LowReverse(x, k) == LowReverse(x / 2, k - 1) + (if x % 2 == 1 then Pow2(k - 1) else 0)
    ensures LowReverse(x, k) < Pow2(k)
    decreases k
  {
    if k > 0 {
      RevIntoShifts(x / 2, k - 1, x % 2);
      LowReverseStep(x / 2, k - 1);
    }
  }

  /** Appending one bit adds its weight. */
  lemma {:induction false} FromBitsSnoc(a: seq<bool>, b: bool)
    ensures FromBits(a + [b]) == FromBits(a) + (if b then Pow2(|a|) else 0)
    decreases |a|
  {
    if a != [] {
      assert (a + [b])[1..] == a[1..] + [b];
      FromBitsSnoc(a[1..], b);
    } else {
      assert a + [b] == [b];
    }
  }

  /** The reversal reads the low `k` bits of `x` backwards. */
  lemma {:induction false} LowReverseSpelled(x: nat, k: nat)
    ensures LowReverse(x, k) == FromBits(Reverse(ToBits(x, k)))
    decreases k
  {
    if k > 0 {
      LowReverseStep(x, k);
      LowReverseSpelled(x / 2, k - 1);
      var rest := ToBits(x / 2, k - 1);
      assert ToBits(x, k) == [x % 2 == 1] + rest;
      assert Reverse(ToBits(x, k)) == Reverse(rest) + [x % 2 == 1];
      FromBitsSnoc(Reverse(rest), x % 2 == 1);
    }
  }

  /** The `k` bits of the reversal are those of the number, backwards:
      bit `j` of the reversal is bit `k - 1 - j` of the number. */
  lemma LowReverseBits(x: nat, k: nat)
    ensures ToBits(LowReverse(x, k), k) == Reverse(ToBits(x, k))
  {
    LowReverseSpelled(x, k);
    ToFromBits(Reverse(ToBits(x, k)));
  }

  /** Reversing the low bits twice gives back any number below `2^k`, so
      the reversal permutes `0 .. 2^k - 1`. */
  lemma LowReverseInvolution(x: nat, k: nat)
    requires x < Pow2(k)
    ensures LowReverse(LowReverse(x, k), k) == x
  {
    var b := Reverse(ToBits(x, k));
    LowReverseSpelled(x, k);
    LowReverseSpelled(LowReverse(x, k), k);
    ToFromBits(b);
    ReverseReverse(ToBits(x, k));
    FromToBits(x, k);
  }

  /** Zero reverses to zero. */
  lemma {:induction false} LowReverseZero(x: nat, k: nat)
    requires x == 0
    ensures LowReverse(x, k) == 0
    decreases k
  {
    if k > 0 {
      LowReverseStep(x, k);
      LowReverseZero(x / 2, k - 1);
    }
  }

  /** The full reversal of a 32-bit word. */
  function Reverse32(x: nat): nat
  {
    LowReverse(x, 32)
  }

  /** Shifting the full reversal right by `32 - k` leaves the reversal of
      the low `k` bits. */
  lemma ShiftedReverse(x: nat, k: nat)
    requires k <= 32
    ensures Shr(Reverse32(x), 32 - k) == LowReverse(x, k)
  {
    var lo, hi := ToBits(x, k), ToBits(Shr(x, k), 32 - k);
    LowReverseSpelled(x, k);
    LowReverseSpelled(x, 32);
    ToBitsSplit(x, k, 32 - k);
    ReverseAppend(lo, hi);
    ShrFromBitsAppend(Reverse(hi), Reverse(lo));
  }

  /** How many halvings take `x` to zero. */
  function BitLength(x: nat): nat
    decreases x
  {
    if x == 0 then 0 else 1 + BitLength(x / 2)
  }

  /** `x` needs exactly `BitLength(x)` bits. */
  lemma {:induction false} BitLengthBounds(x: nat)
    ensures x < Pow2(BitLength(x))
    ensures x > 0 ==> Pow2(BitLength(x) - 1) <= x
    decreases x
  {
    if x > 0 {
      BitLengthBounds(x / 2);
    }
  }

  /** `k` is the base-2 logarithm of `n`, rounded up. */
  predicate IsCeilLog2(k: nat, n: nat)
  {
    n <= Pow2(k) && (k == 0 || Pow2(k - 1) < n)
  }

  /** The number of bits of `n - 1` is the rounded-up logarithm of `n`. */
  lemma CeilLog2OfBitLength(n: nat)
    requires n >= 1
    ensures IsCeilLog2(BitLength(n - 1), n)
  {
    BitLengthBounds(n - 1);
  }

  /** The logarithm is unique. */
  lemma CeilLog2Unique(a: nat, b: nat, n: nat)
    requires IsCeilLog2(a, n) && IsCeilLog2(b, n)
    ensures a == b
  {
    if a < b {
      Pow2Monotone(a, b - 1);
    } else if b < a {
      Pow2Monotone(b, a - 1);
    }
  }

  /** Below an exact power of two every number fits in `k` bits, and one
      less than it needs all `k`. */
  lemma {:induction false} BitLengthOfPow2Pred(k: nat)
    ensures BitLength(Pow2(k) - 1) == k
    decreases k
  {
    if k > 0 {
      BitLengthOfPow2Pred(k - 1);
      assert (Pow2(k) - 1) / 2 == Pow2(k - 1) - 1;
    }
  }

  /** `n` is `2^k` for some `k`, which is then the bit length of `n - 1`. */
  predicate IsPowerOfTwo(n: nat)
  {
    n >= 1 && n == Pow2(BitLength(n - 1))
  }

  /** `n.next_power_of_two()`: the least power of two not below `n`, which
      is 1 for 0. */
  function NextPowerOfTwo(n: nat): (r: nat)
  {
    if n == 0 then 1 else Pow2(BitLength(n - 1))
  }

  lemma NextPowerOfTwoSpec(n: nat)
    ensures var r := NextPowerOfTwo(n);
      && n <= r && r == Pow2(BitLength(r - 1))
      && (n >= 1 ==> IsCeilLog2(BitLength(r - 1), n))
      && (forall k :: 0 <= k < BitLength(r - 1) ==> Pow2(k) < n)
  {
    if n >= 1 {
      CeilLog2OfBitLength(n);
      BitLengthOfPow2Pred(BitLength(n - 1));
      forall k | 0 <= k < BitLength(n - 1)
        ensures Pow2(k) < n
      {
        Pow2Monotone(k, BitLength(n - 1) - 1);
      }
    } else {
      assert BitLength(0) == 0;
    }
  }

  /** The source's five mask-and-shift steps that reverse a 32-bit word. */
  function SwapNetwork(n: bv32): bv32
  {
    var i0 := (n >> 16) | (n << 16);
    var i1 := ((i0 & 0xFF00FF00) >> 8) | ((i0 & 0x00FF00FF) << 8);
    var i2 := ((i1 & 0xF0F0F0F0) >> 4) | ((i1 & 0x0F0F0F0F) << 4);
    var i3 := ((i2 & 0xCCCCCCCC) >> 2) | ((i2 & 0x33333333) << 2);
    ((i3 & 0xAAAAAAAA) >> 1) | ((i3 & 0x55555555) << 1)
  }

  /** The network moves bit `31 - j` of its input to bit `j`. */
  lemma SwapNetworkBits(n: bv32, j: bv32)
    requires j < 32
    ensures (SwapNetwork(n) >> j) & 1 == (n >> (31 - j)) & 1
  {
  }

  /** Applying the network twice is the identity. */
  lemma SwapNetworkInvolution(n: bv32)
    ensures SwapNetwork(SwapNetwork(n)) == n
  {
  }

  /** The full-width cases of `test_bit_reverse`. */
  lemma SwapNetworkExamples()
    ensures SwapNetwork(0x00000000) == 0x00000000
    ensures SwapNetwork(0xFFFFFFFF) == 0xFFFFFFFF
    ensures SwapNetwork(0x00000001) == 0x80000000
    ensures SwapNetwork(0x11111111) == 0x88888888
    ensures SwapNetwork(0x234f9e01) == 0x8079f2c4
  {
  }

  /** `2^32`, the number of 32-bit words. */
  lemma Pow2Of32()
    ensures Pow2(32) == 0x1_0000_0000
  {
    assert Pow2(2) == 4;
    Pow2Add(2, 2);
    Pow2Add(4, 4);
    Pow2Add(8, 8);
    Pow2Add(16, 16);
  }

  // The value of a word. The bits of a `bv32` are read off with masks and
  // shifts, and the number they spell is the word's unsigned value, so
  // facts about the network carry over to the integers the tables hold.

  /** Bit `j` of a word. */
  function Bit(x: bv32, j: bv32): bv32
    requires j < 32
  {
    (x >> j) & 1
  }

  /** The network moves bit `31 - j` to bit `j`, for every `j`. */
  lemma SwapNetworkMirrors(n: bv32)
    ensures forall j: bv32 :: j < 32 ==> Bit(SwapNetwork(n), j) == Bit(n, 31 - j)
  {
    forall j: bv32 | j < 32
      ensures Bit(SwapNetwork(n), j) == Bit(n, 31 - j)
    {
      SwapNetworkBits(n, j);
    }
  }

  /** The low `k` bits of a word, least significant first, read off one
      mask and one shift at a time. */
  function WordBits(x: bv32, k: nat): (r: seq<bool>)
    ensures |r| == k
    decreases k
  {
    if k == 0 then [] else [x & 1 == 1] + WordBits(x >> 1, k - 1)
  }

  /** The unsigned value of a word: the number its 32 bits spell. */
  function WordValue(x: bv32): (r: nat)
    ensures r < 0x1_0000_0000
  {
    Pow2Of32();
    FromBits(WordBits(x, 32))
  }

  /** `x` shifted right `j` times by one place. */
  function ShrWord(x: bv32, j: nat): bv32
    decreases j
  {
    if j == 0 then x else ShrWord(x >> 1, j - 1)
  }

  /** The word `J` is reached from 0 by the same number of increments as
      the integer `j`: it is `j` as a word, defined without a conversion. */
  predicate Counts(j: nat, J: bv32)
    decreases j
  {
    if j == 0 then J == 0 else J != 0 && Counts(j - 1, J - 1)
  }

  lemma CountsSucc(j: nat, J: bv32)
    requires Counts(j, J) && J < 31
    ensures Counts(j + 1, J + 1)
  {
    assert (J + 1) - 1 == J;
  }

  lemma Counts31()
    ensures Counts(31, 31)
  {
    CountsSucc(0, 0);
    CountsSucc(1, 1);
    CountsSucc(2, 2);
    CountsSucc(3, 3);
    CountsSucc(4, 4);
    CountsSucc(5, 5);
    CountsSucc(6, 6);
    CountsSucc(7, 7);
    CountsSucc(8, 8);
    CountsSucc(9, 9);
    CountsSucc(10, 10);
    CountsSucc(11, 11);
    CountsSucc(12, 12);
    CountsSucc(13, 13);
    CountsSucc(14, 14);
    CountsSucc(15, 15);
    CountsSucc(16, 16);
    CountsSucc(17, 17);
    CountsSucc(18, 18);
    CountsSucc(19, 19);
    CountsSucc(20, 20);
    CountsSucc(21, 21);
    CountsSucc(22, 22);
    CountsSucc(23, 23);
    CountsSucc(24, 24);
    CountsSucc(25, 25);
    CountsSucc(26, 26);
    CountsSucc(27, 27);
    CountsSucc(28, 28);
    CountsSucc(29, 29);
    CountsSucc(30, 30);
  }

  /** Every position `j` below 32 has its word `J`, and `31 - J` is the
      word of `31 - j`. */
  lemma {:induction false} PositionWord(j: nat) returns (J: bv32)
    requires j < 32
    ensures J < 32 && Counts(j, J) && Counts(31 - j, 31 - J)
    decreases j
  {
    if j == 0 {
      Counts31();
      J := 0;
    } else {
      var P := PositionWord(j - 1);
      J := P + 1;
      assert (P + 1) - 1 == P;
      assert (31 - P) - 1 == 31 - J;
    }
  }

  lemma ShiftOnce(x: bv32, a: bv32)
    requires a < 31
    ensures (x >> 1) >> a == x >> (a + 1)
  {
  }

  /** `j` shifts by one place make one shift by `j` places. */
  lemma {:induction false} ShrWordIsShift(x: bv32, j: nat, J: bv32)
    requires Counts(j, J) && J < 32
    ensures ShrWord(x, j) == x >> J
    decreases j
  {
    if j > 0 {
      ShrWordIsShift(x >> 1, j - 1, J - 1);
      ShiftOnce(x, J - 1);
    }
  }

  /** Entry `j` of the spelled-out bits is bit 0 of the word after `j`
      shifts. */
  lemma {:induction false} WordBitsAt(x: bv32, k: nat, j: nat)
    requires j < k
    ensures WordBits(x, k)[j] <==> ShrWord(x, j) & 1 == 1
    decreases j
  {
    if j > 0 {
      WordBitsAt(x >> 1, k - 1, j - 1);
    }
  }

  /** Entry `j` of the spelled-out bits is `Bit(x, J)` for the word `J`
      of `j`. */
  lemma WordBitsAtWord(x: bv32, j: nat, J: bv32)
    requires j < 32 && J < 32 && Counts(j, J)
    ensures WordBits(x, 32)[j] <==> Bit(x, J) == 1
  {
    WordBitsAt(x, 32, j);
    ShrWordIsShift(x, j, J);
  }

  /** Two 32-bit strings, one the mirror image of the other, spell
      numbers that are each other's 32-bit reversal. */
  lemma ReversedSpelling(a: seq<bool>, b: seq<bool>)
    requires |a| == |b| == 32
    requires forall j :: 0 <= j < 32 ==> a[j] == b[31 - j]
    ensures FromBits(a) == Reverse32(FromBits(b))
  {
    assert a == Reverse(b);
    ToFromBits(b);
    LowReverseBits(FromBits(b), 32);
    LowReverseStep(FromBits(b), 32);
    FromToBits(Reverse32(FromBits(b)), 32);
    ToFromBits(a);
    FromToBits(FromBits(a), 32);
  }

  /** A word whose bit `j` is bit `31 - j` of `n`, for every `j`, has the
      32-bit reversal of `n`'s value as its value. */
  lemma MirroredWord(s: bv32, n: bv32)
    requires forall J: bv32 :: J < 32 ==> Bit(s, J) == Bit(n, 31 - J)
    ensures WordValue(s) == Reverse32(WordValue(n))
  {
    forall j | 0 <= j < 32
      ensures WordBits(s, 32)[j] == WordBits(n, 32)[31 - j]
    {
      var J := PositionWord(j);
      WordBitsAtWord(s, j, J);
      WordBitsAtWord(n, 31 - j, 31 - J);
    }
    ReversedSpelling(WordBits(s, 32), WordBits(n, 32));
  }

  /** The mask-and-shift network computes the full 32-bit reversal: the
      value of its result is the reversal of the low 32 bits of the value
      of its input. */
  lemma SwapNetworkIsReverse32(n: bv32)
    ensures WordValue(SwapNetwork(n)) == Reverse32(WordValue(n))
  {
    SwapNetworkMirrors(n);
    MirroredWord(SwapNetwork(n), n);
  }
  // Every integer below 2^32 is the value of a word.

  /** The bits of the zero word are all clear. */
  lemma {:induction false} ZeroWordValue(k: nat)
    ensures FromBits(WordBits(0, k)) == 0
    decreases k
  {
    if k > 0 {
      ZeroWordValue(k - 1);
      assert WordBits(0, k)[1..] == WordBits(0, k - 1);
    }
  }

  /** `k` set bits spell `2^k - 1`. */
  lemma {:induction false} OnesValue(b: seq<bool>)
    requires forall j :: 0 <= j < |b| ==> b[j]
    ensures FromBits(b) == Pow2(|b|) - 1
    decreases |b|
  {
    if b != [] {
      OnesValue(b[1..]);
    }
  }

  /** The low `k <= 32` bits of the all-ones word spell `2^k - 1`. */
  lemma AllOnesValue(k: nat)
    requires k <= 32
    ensures FromBits(WordBits(0xFFFF_FFFF, k)) == Pow2(k) - 1
  {
    forall j | 0 <= j < k
      ensures WordBits(0xFFFF_FFFF, k)[j]
    {
      var J := PositionWord(j);
      WordBitsAt(0xFFFF_FFFF, k, j);
      ShrWordIsShift(0xFFFF_FFFF, j, J);
    }
    OnesValue(WordBits(0xFFFF_FFFF, k));
  }

  /** The spelled-out value of `b` splits into its first bit and the
      rest. */
  lemma WordBitsHead(w: bv32, k: nat)
    requires k > 0
    ensures FromBits(WordBits(w, k)) == (if w & 1 == 1 then 1 else 0) + 2 * FromBits(WordBits(w >> 1, k - 1))
  {
    assert WordBits(w, k)[1..] == WordBits(w >> 1, k - 1);
  }

  lemma EvenSucc(w: bv32)
    requires w & 1 == 0
    ensures (w + 1) & 1 == 1 && (w + 1) >> 1 == w >> 1
  {
  }

  lemma OddSucc(w: bv32)
    requires w & 1 == 1 && w != 0xFFFF_FFFF
    ensures (w + 1) & 1 == 0 && (w + 1) >> 1 == (w >> 1) + 1
  {
  }

  lemma SuccOfEven(v: nat, p: nat)
    requires v < p
    ensures (2 * v + 1) % (2 * p) == 1 + 2 * v
  {
    ModSmall(2 * v + 1, 2 * p);
  }

  lemma SuccOfOdd(v: nat, p: nat)
    requires v < p
    ensures (1 + 2 * v + 1) % (2 * p) == 2 * ((v + 1) % p)
  {
    ModSmall(2 * v + 2, 2 * p);
    ModSmall(v + 1, p);
  }

  /** Adding one to a word adds one to the value of its low `k` bits,
      modulo `2^k`. */
  lemma {:induction false} WordValueSucc(w: bv32, k: nat)
    requires k <= 32
    ensures FromBits(WordBits(w + 1, k)) == (FromBits(WordBits(w, k)) + 1) % Pow2(k)
    decreases k
  {
    if k == 0 {
    } else if w & 1 == 0 {
      EvenWordSucc(w, k);
    } else if w == 0xFFFF_FFFF {
      AllOnesSucc(k);
    } else {
      WordValueSucc(w >> 1, k - 1);
      OddWordSucc(w, k);
    }
  }

  lemma AllOnesSucc(k: nat)
    requires k <= 32
    ensures FromBits(WordBits(0xFFFF_FFFF + 1, k)) == (FromBits(WordBits(0xFFFF_FFFF, k)) + 1) % Pow2(k)
  {
    AllOnesValue(k);
    ZeroWordValue(k);
    ModUnique(Pow2(k), Pow2(k), 1, 0);
  }

  lemma EvenWordSucc(w: bv32, k: nat)
    requires 0 < k && w & 1 == 0
    ensures FromBits(WordBits(w + 1, k)) == (FromBits(WordBits(w, k)) + 1) % Pow2(k)
  {
    WordBitsHead(w, k);
    WordBitsHead(w + 1, k);
    EvenSucc(w);
    SuccOfEven(FromBits(WordBits(w >> 1, k - 1)), Pow2(k - 1));
  }

  lemma OddWordSucc(w: bv32, k: nat)
    requires 0 < k && w & 1 == 1 && w != 0xFFFF_FFFF
    requires FromBits(WordBits((w >> 1) + 1, k - 1)) == (FromBits(WordBits(w >> 1, k - 1)) + 1) % Pow2(k - 1)
    ensures FromBits(WordBits(w + 1, k)) == (FromBits(WordBits(w, k)) + 1) % Pow2(k)
  {
    WordBitsHead(w, k);
    WordBitsHead(w + 1, k);
    OddSucc(w);
    SuccOfOdd(FromBits(WordBits(w >> 1, k - 1)), Pow2(k - 1));
  }

  /** The successor of a word of value `n - 1` has value `n`. */
  lemma WordSucc(w: bv32, n: nat)
    requires 0 < n < 0x1_0000_0000 && WordValue(w) == n - 1
    ensures WordValue(w + 1) == n
  {
    WordSuccWidth(w, n, 32);
  }

  /** `WordSucc` with the width held in a variable, so that the 32 levels
      of `WordBits` are not unfolded. */
  lemma WordSuccWidth(w: bv32, n: nat, k: nat)
    requires k == 32
    requires 0 < n < 0x1_0000_0000 && FromBits(WordBits(w, k)) == n - 1
    ensures FromBits(WordBits(w + 1, k)) == n
  {
    WordValueSucc(w, k);
    Pow2Of32();
    SuccBelow(n, Pow2(k));
  }

  lemma SuccBelow(n: nat, p: nat)
    requires 0 < n < p
    ensures (n - 1 + 1) % p == n
  {
    ModUnique(n, p, 0, n);
  }

  /** The word whose value is `n`, counted up from zero. */
  function WordOf(n: nat): (w: bv32)
    requires n < 0x1_0000_0000
    ensures WordValue(w) == n
    decreases n
  {
    if n == 0 then
      ZeroWordValue(32);
      0
    else
      WordSucc(WordOf(n - 1), n);
      WordOf(n - 1) + 1
  }
}
