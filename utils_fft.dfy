/** The integer side of the fast Fourier transform: the bit reversal of an
    index, the rounded-up logarithm, the bit-reversal table a transformer
    precomputes, the bit-reversed copy of the input, the butterfly passes
    and the transform they make up. Sample values are abstract: the copy
    moves them, and the butterfly, conjugation and normalisation are
    parameters, so the model states where every value goes and never what
    the floating-point arithmetic makes of it. */
module UtilsFft {
  import opened Bits
  import opened Queues
  import opened Modular

  /** 2^32: `usize` values are cast to `u32` modulo this. */
  const U32_MODULUS: nat := 0x1_0000_0000

  /** `bit_reverse(n, bits)`: the mask-and-shift network applied to the
      word `n`, shifted right by `32 - bits`. For `bits == 0` the shift
      amount 32 is masked to 0, as a release build does, and the full
      reversal is returned. The network's result is the reversal of all 32
      bits of `n`. */
  function BitReverse(n: nat, bits: nat): (r: nat)
    requires n < U32_MODULUS && bits <= 32
    ensures r == if bits == 0 then Reverse32(n) else Shr(Reverse32(n), 32 - bits)
  {
    var w := WordOf(n);
    SwapNetworkIsReverse32(w);
    var full := WordValue(SwapNetwork(w));
    if bits == 0 then full else Shr(full, 32 - bits)
  }

  /** For `1 <= bits <= 32` the result is the low `bits` bits of `n` in
      reverse order; it fits in `bits` bits. */
  lemma BitReverseIsLowReverse(n: nat, bits: nat)
    requires n < U32_MODULUS && 1 <= bits <= 32
    ensures BitReverse(n, bits) == LowReverse(n, bits) < Pow2(bits)
  {
    ShiftedReverse(n, bits);
    LowReverseStep(n, bits);
  }

  /** On values below `2^bits` the reversal undoes itself. */
  lemma BitReverseInvolution(x: nat, bits: nat)
    requires 1 <= bits <= 32 && x < Pow2(bits)
    ensures Pow2(bits) <= U32_MODULUS
    ensures BitReverse(x, bits) < Pow2(bits)
    ensures BitReverse(BitReverse(x, bits), bits) == x
  {
    Pow2Monotone(bits, 32);
    Pow2Of32();
    BitReverseIsLowReverse(x, bits);
    BitReverseIsLowReverse(LowReverse(x, bits), bits);
    LowReverseInvolution(x, bits);
  }

  /** The low-bit cases of `test_bit_reverse`: 0b0001 reverses to 0b1000
      and 0b1111 to itself. */
  lemma LowReverseExamples()
    ensures LowReverse(1, 4) == 8
    ensures LowReverse(15, 4) == 15
  {
    assert Pow2(3) == 8;
  }

  /** `n - 1` on a `u32`, which wraps to `2^32 - 1` for 0. */
  function WrappedPred(n: nat): (r: nat)
    requires n < U32_MODULUS
    ensures r < U32_MODULUS
  {
    if n == 0 then U32_MODULUS - 1 else n - 1
  }

  /** What `int_log(n)` returns: the number of halvings that empty
      `n - 1`. */
  function Log2Up(n: nat): (r: nat)
    requires n < U32_MODULUS
    ensures r <= 32
  {
    var x := WrappedPred(n);
    BitLengthBelow32(x);
    BitLength(x)
  }

  lemma BitLengthBelow32(x: nat)
    requires x < U32_MODULUS
    ensures BitLength(x) <= 32
  {
    BitLengthBounds(x);
    Pow2Of32();
    if BitLength(x) > 32 {
      Pow2Monotone(32, BitLength(x) - 1);
    }
  }

  /** For `n >= 1` it is the base-2 logarithm of `n` rounded up; for 0 the
      subtraction wraps and all 32 bits count. */
  lemma Log2UpSpec(n: nat)
    requires n < U32_MODULUS
    ensures n >= 1 ==> IsCeilLog2(Log2Up(n), n)
    ensures n == 0 ==> Log2Up(n) == 32
  {
    if n >= 1 {
      CeilLog2OfBitLength(n);
    } else {
      Pow2Of32();
      BitLengthOfPow2Pred(32);
    }
  }

  /** The cases of `test_int_log`. */
  lemma Log2UpExamples()
    ensures Log2Up(1) == 0 && Log2Up(2) == 1 && Log2Up(3) == 2 && Log2Up(4) == 2
    ensures Log2Up(7) == 3 && Log2Up(8) == 3 && Log2Up(31) == 5 && Log2Up(32) == 5
  {
  }

  /** `int_log(n)`: count the halvings of `n - 1`. */
  method IntLog(n: nat) returns (res: nat)
    requires n < U32_MODULUS
    ensures res == Log2Up(n)
    ensures n >= 1 ==> IsCeilLog2(res, n)
  {
    var i := WrappedPred(n);
    res := 0;
    while i > 0
      invariant res + BitLength(i) == Log2Up(n)
    {
      i := i / 2;
      res := res + 1;
    }
    Log2UpSpec(n);
  }

  /** A transformer: the rounded-up size, the bit-reversal table, and the
      twiddle factors, each represented by its exponent `k` of
      `exp(-2 pi j k / size)`. */
  datatype Transformer = Transformer(size: nat, bitReverses: seq<nat>, twiddles: seq<nat>)

  /** Entry `i` of the table for buffer size `bufsize`: the reversal of
      the low `int_log(bufsize as u32)` bits of `i as u32`, which is what
      `bit_reverse` computes for every index below a power-of-two
      `bufsize` (see `ComputeEntry`). */
  function TableEntry(i: nat, bufsize: nat): nat
  {
    LowReverse(i % U32_MODULUS, Log2Up(bufsize % U32_MODULUS))
  }

  /** A power of two other than 1 is even. */
  lemma PowerOfTwoParity(n: nat)
    requires IsPowerOfTwo(n) && n != 1
    ensures n % 2 == 0
  {
  }

  /** The body of the table loop of `new`:
      `bit_reverse(i as u32, int_log(bufsize as u32))`. */
  method ComputeEntry(i: nat, bufsize: nat) returns (br: nat)
    requires IsPowerOfTwo(bufsize) && i < bufsize
    ensures br == TableEntry(i, bufsize)
  {
    var bits := IntLog(bufsize % U32_MODULUS);
    EntryAgrees(i, bufsize, bits);
    br := BitReverse(i % U32_MODULUS, bits);
  }

  lemma EntryAgrees(i: nat, bufsize: nat, bits: nat)
    requires IsPowerOfTwo(bufsize) && i < bufsize
    requires bits == Log2Up(bufsize % U32_MODULUS)
    ensures BitReverse(i % U32_MODULUS, bits) == TableEntry(i, bufsize)
  {
    var n := i % U32_MODULUS;
    ModAtMost(i, U32_MODULUS);
    if bits == 0 {
      assert WrappedPred(bufsize % U32_MODULUS) == 0;
      if bufsize != 1 {
        PowerOfTwoParity(bufsize);
        assert false;
      }
      LowReverseZero(n, 32);
      LowReverseZero(n, 0);
    } else {
      BitReverseIsLowReverse(n, bits);
    }
  }

  /** The table as `new` builds it: one entry per index below `size`, the
      size asked for, which is short of the rounded-up size whenever `size`
      is not a power of two. */
  function TableAsWritten(size: nat): (r: seq<nat>)
    ensures |r| == size
  {
    seq(size, i requires 0 <= i < size => TableEntry(i, NextPowerOfTwo(size)))
  }

  /** The transformer `new(size)` builds as written. */
  function NewAsWritten(size: nat): Transformer
  {
    var bufsize := NextPowerOfTwo(size);
    Transformer(bufsize, TableAsWritten(size), Range(bufsize))
  }

  /** The input copy of `transform` indexes `bit_reverses[i]` for every
      input index and then slices `bit_reverses[input.len() .. size]`; it
      panics when either is out of bounds. */
  predicate CopyInPanics(t: Transformer, inputLength: nat)
  {
    inputLength > |t.bitReverses| || inputLength > t.size || t.size > |t.bitReverses|
  }

  /** With the table as written, a transform panics exactly when the size
      asked for is not a power of two or the input is longer than it: the
      zero padding and the truncation the documentation promises never
      happen. */
  lemma AsWrittenPanics(size: nat, inputLength: nat)
    ensures CopyInPanics(NewAsWritten(size), inputLength) <==>
      size != NextPowerOfTwo(size) || inputLength > size
  {
    NextPowerOfTwoSpec(size);
  }

  /** For instance, a transformer asked for 3 points panics even on empty
      input. */
  lemma ThreePointsPanic()
    ensures NewAsWritten(3).size == 4 && CopyInPanics(NewAsWritten(3), 0)
  {
    assert BitLength(2) == 2;
  }

  /** The table with one entry per index of the rounded-up size. */
  function Table(size: nat): (r: seq<nat>)
    ensures |r| == NextPowerOfTwo(size)
  {
    var bufsize := NextPowerOfTwo(size);
    seq(bufsize, i requires 0 <= i < bufsize => TableEntry(i, bufsize))
  }

  /** For a power-of-two size the table as written is the full one. */
  lemma AsWrittenAgrees(size: nat)
    requires size == NextPowerOfTwo(size)
    ensures TableAsWritten(size) == Table(size)
  {
  }

  /** `table` maps `0 .. n-1` onto itself and undoes itself. */
  predicate Involutive(table: seq<nat>, n: nat)
  {
    |table| == n && forall k :: 0 <= k < n ==> table[k] < n && table[table[k]] == k
  }

  lemma InvolutiveIsPermutation(table: seq<nat>, n: nat)
    requires Involutive(table, n)
    ensures IsPermutation(table, n)
  {
    forall v | 0 <= v < n
      ensures v in table
    {
      assert table[table[v]] == v;
    }
    forall i, j | 0 <= i < j < n
      ensures table[i] != table[j]
    {
      assert table[table[i]] == i && table[table[j]] == j;
    }
  }

  /** The rounded-up size of a table of at most `2^32` entries is `2^k`
      for some `k <= 32`, and `int_log(bufsize as u32)` is that `k`. */
  lemma BufferLog(size: nat)
    requires size <= U32_MODULUS
    ensures var bufsize := NextPowerOfTwo(size); var k := BitLength(bufsize - 1);
      && bufsize == Pow2(k) && k <= 32 && bufsize <= U32_MODULUS
      && Log2Up(bufsize % U32_MODULUS) == k
  {
    var bufsize := NextPowerOfTwo(size);
    NextPowerOfTwoSpec(size);
    var k := BitLength(bufsize - 1);
    assert bufsize == Pow2(k);
    Pow2Of32();
    assert k <= 32;
    Pow2Monotone(k, 32);
    if bufsize < U32_MODULUS {
      assert bufsize % U32_MODULUS == bufsize;
    } else {
      BufferOf32(k);
    }
  }

  lemma BufferOf32(k: nat)
    requires k <= 32 && Pow2(k) == U32_MODULUS
    ensures k == 32 && Log2Up(Pow2(k) % U32_MODULUS) == k
  {
    Pow2Of32();
    if k < 32 {
      Pow2StrictlyMonotone(k, 32);
    }
    Log2UpSpec(0);
  }

  /** Entry `i` of a table for `2^k` points is the reversal of the low
      `k` bits of `i`. */
  lemma TableEntryReverses(i: nat, bufsize: nat, k: nat)
    requires bufsize == Pow2(k) <= U32_MODULUS && k <= 32 && i < bufsize
    requires Log2Up(bufsize % U32_MODULUS) == k
    ensures TableEntry(i, bufsize) == LowReverse(i, k) < bufsize
  {
    ModUnique(i, U32_MODULUS, 0, i);
    assert TableEntry(i, bufsize) == LowReverse(i, k);
    LowReverseStep(i, k);
  }

  /** The full table reverses the low `log2(bufsize)` bits of every index
      below `bufsize`, so it is an involution of `0 .. bufsize - 1` and a
      permutation of it. Tables of more than `2^32` entries, whose indices
      the `u32` casts truncate, are not covered. */
  lemma TableInvolutive(size: nat)
    requires size <= U32_MODULUS
    ensures Involutive(Table(size), NextPowerOfTwo(size))
    ensures IsPermutation(Table(size), NextPowerOfTwo(size))
  {
    var bufsize := NextPowerOfTwo(size);
    var table := Table(size);
    BufferLog(size);
    var k := BitLength(bufsize - 1);
    forall i | 0 <= i < bufsize
      ensures table[i] == LowReverse(i, k) < bufsize
    {
      TableEntryReverses(i, bufsize, k);
    }
    forall i | 0 <= i < bufsize
      ensures table[table[i]] == i
    {
      LowReverseInvolution(i, k);
    }
    InvolutiveIsPermutation(table, bufsize);
  }

  /** What a transform needs of its transformer: a power-of-two size, a
      full involutive table and one twiddle factor per point. */
  predicate Ready(t: Transformer)
  {
    IsPowerOfTwo(t.size) && Involutive(t.bitReverses, t.size) && |t.twiddles| == t.size
  }

  /** `new(size)` with the full table (see `TableAsWritten`): the size is
      rounded up to a power of two, the table holds the bit reversal of
      every index, and twiddle `k` is the `k`-th power of the root of
      unity. */
  method New(size: nat) returns (t: Transformer)
    ensures t.size == NextPowerOfTwo(size) && t.bitReverses == Table(size)
    ensures t.twiddles == Range(t.size)
  {
    var bufsize := NextPowerOfTwo(size);
    NextPowerOfTwoSpec(size);
    var table: seq<nat> := [];
    for i := 0 to bufsize
      invariant |table| == i && forall j :: 0 <= j < i ==> table[j] == TableEntry(j, bufsize)
    {
      var br := ComputeEntry(i, bufsize);
      table := table + [br];
    }
    var twiddles: seq<nat> := [];
    for i := 0 to bufsize
      invariant |twiddles| == i && forall j :: 0 <= j < i ==> twiddles[j] == j
    {
      twiddles := twiddles + [i];
    }
    assert twiddles == Range(bufsize);
    assert table == Table(size);
    t := Transformer(bufsize, table, twiddles);
  }

  /** A transformer of at most `2^32` points is ready for transforms. */
  lemma NewIsReady(size: nat)
    requires size <= U32_MODULUS
    ensures var bufsize := NextPowerOfTwo(size);
      Ready(Transformer(bufsize, Table(size), Range(bufsize)))
  {
    TableInvolutive(size);
    NextPowerOfTwoSpec(size);
  }

  // The input copy.

  /** The values the copy puts in bit-reversed order: the input, conjugated
      for an inverse transform, cut or zero-padded to `size` values. */
  function Padded<T>(input: seq<T>, size: nat, inverse: bool, conj: T -> T, zero: T): (p: seq<T>)
    ensures |p| == size
  {
    seq(size, i requires 0 <= i < size =>
      if i < |input| then (if inverse then conj(input[i]) else input[i]) else zero)
  }

  /** Position `k` receives the value at `table[k]`. */
  function Permuted<T>(p: seq<T>, table: seq<nat>): (r: seq<T>)
    requires |table| == |p| && forall k :: 0 <= k < |p| ==> table[k] < |p|
    ensures |r| == |p|
  {
    seq(|p|, k requires 0 <= k < |p| => p[table[k]])
  }

  /** Permuting twice by an involutive table gives back the values. */
  lemma PermutedTwice<T>(p: seq<T>, table: seq<nat>)
    requires Involutive(table, |p|)
    ensures Permuted(Permuted(p, table), table) == p
  {
    var q := Permuted(p, table);
    forall k | 0 <= k < |p|
      ensures Permuted(q, table)[k] == p[k]
    {
      assert q[table[k]] == p[table[table[k]]];
    }
  }

  /** One value per position: only position `table[j]` can hold `p[j]`,
      since the table is one to one. */
  lemma PermutedPlaces<T>(p: seq<T>, table: seq<nat>, j: nat)
    requires Involutive(table, |p|) && j < |p|
    ensures Permuted(p, table)[table[j]] == p[j]
  {
    assert table[table[j]] == j;
  }

  /** The copy at the start of `transform`, with the truncation the
      documentation promises: value `j` of the padded input goes to
      `output[table[j]]`, first for the input values, then the zeros for
      the positions `table[|input| .. size]`. Every position below `size`
      is written once, and nothing above. */
  method CopyIn<T>(table: seq<nat>, size: nat, input: seq<T>, output: array<T>,
                   inverse: bool, conj: T -> T, zero: T)
    requires Involutive(table, size) && size <= output.Length
    modifies output
    ensures output[..size] == Permuted(Padded(input, size, inverse, conj, zero), table)
    ensures output[size..] == old(output[size..])
  {
    ghost var p := Padded(input, size, inverse, conj, zero);
    var len := if |input| < size then |input| else size;
    for i := 0 to len
      invariant forall j :: 0 <= j < i ==> output[table[j]] == p[j]
      invariant forall k :: 0 <= k < output.Length && (k >= size || table[k] >= i) ==> output[k] == old(output[k])
    {
      output[table[i]] := if inverse then conj(input[i]) else input[i];
    }
    for i := len to size
      invariant forall j :: 0 <= j < i ==> output[table[j]] == p[j]
      invariant forall k :: 0 <= k < output.Length && (k >= size || table[k] >= i) ==> output[k] == old(output[k])
    {
      output[table[i]] := zero;
    }
    forall k | 0 <= k < size
      ensures output[k] == p[table[k]]
    {
      assert table[table[k]] == k;
    }
  }

  // The butterfly passes.

  /** Index `ilo` of pair `i` of block number `block` in the pass over blocks of
      `n` points, and its partner `ihi`, half a block higher. */
  function Lo(n: nat, block: nat, i: nat): nat
  {
    n * block + i
  }

  function Hi(n: nat, block: nat, i: nat): nat
  {
    Lo(n, block, i) + n / 2
  }

  /** The shape of a pass: blocks of an even number `n` of points that
      exactly fill `size`. */
  predicate PassShape(size: nat, n: nat)
  {
    2 <= n <= size && n % 2 == 0 && size % n == 0
  }

  lemma MulLess(a: nat, b: nat, c: nat)
    requires a >= 1 && b < c
    ensures a * b < a * c
  {
    assert a * c - a * b == a * (c - b);
  }

  /** The block count times the block size is the buffer size. */
  lemma BlocksFill(size: nat, n: nat)
    requires PassShape(size, n)
    ensures size == (size / n) * n && size / n >= 1
  {
    Division(size, n);
  }

  /** The pairs of all blocks together are half the buffer. */
  lemma HalfBlocks(size: nat, n: nat)
    requires PassShape(size, n)
    ensures (size / n) * (n / 2) * 2 == size
  {
    var m := size / n;
    BlocksFill(size, n);
    assert n == 2 * (n / 2);
    assert m * n == m * (2 * (n / 2));
  }

  /** In the pass over blocks of `n`, every pair the loops visit has
      `ilo < ihi < size`, and its twiddle index `size/n * i` is below
      `size / 2`. */
  lemma PairInRange(size: nat, n: nat, block: nat, i: nat)
    requires PassShape(size, n) && block < size / n && i < n / 2
    ensures Lo(n, block, i) < Hi(n, block, i) < size
    ensures (size / n) * i < size / 2
  {
    var m := size / n;
    BlocksFill(size, n);
    MulLess(n, block, m);
    assert n * (block + 1) == n * block + n;
    assert n * (block + 1) <= n * m by {
      if block + 1 < m {
        MulLess(n, block + 1, m);
      }
    }
    MulLess(m, i, n / 2);
    HalfBlocks(size, n);
  }

  /** Index `k` is visited by the pair at offset `r` of block `block`:
      as `ilo` when `r` lies in the lower half of the block, and as `ihi`
      of pair `r - n/2` otherwise. */
  predicate VisitedAt(n: nat, block: nat, r: nat, k: nat)
  {
    if r < n / 2 then k == Lo(n, block, r) else k == Hi(n, block, r - n / 2)
  }

  /** Every index below `size` is visited by the pass, by the pair at
      offset `k % n` of block `k / n`. */
  lemma PairCovers(size: nat, n: nat, k: nat)
    requires PassShape(size, n) && k < size
    ensures exists block: nat, r: nat :: block < size / n && r < n && VisitedAt(n, block, r, k)
  {
    var m := size / n;
    BlocksFill(size, n);
    var q, r := Decompose(k, n);
    BlockBelow(q, r, n, m);
    assert VisitedAt(n, q, r, k);
  }

  /** `k` as a whole number of blocks of `n` and a remainder. */
  lemma Decompose(k: nat, n: nat) returns (q: nat, r: nat)
    requires n >= 1
    ensures k == q * n + r && r < n && q == k / n && r == k % n
  {
    q, r := k / n, k % n;
  }

  lemma Division(k: nat, n: nat)
    requires n >= 1
    ensures k == (k / n) * n + k % n && k % n < n
  {
  }

  /** A value below `m` blocks of `n` lies in one of the first `m` blocks. */
  lemma BlockBelow(q: nat, r: nat, n: nat, m: nat)
    requires n >= 1 && q * n + r < m * n
    ensures q < m
  {
    if q >= m {
      MulAtMost(n, m, q);
      assert false;
    }
  }

  lemma MulAtMost(a: nat, b: nat, c: nat)
    requires b <= c
    ensures b * a <= c * a
  {
    assert c * a - b * a == (c - b) * a;
  }

  /** No index is visited twice in a pass: the pair that visits it is
      unique, and no index is both a lower and an upper one. */
  lemma PairsDisjoint(n: nat, block1: nat, i1: nat, block2: nat, i2: nat)
    requires n >= 2 && n % 2 == 0 && i1 < n / 2 && i2 < n / 2
    ensures Lo(n, block1, i1) == Lo(n, block2, i2) ==> block1 == block2 && i1 == i2
    ensures Hi(n, block1, i1) == Hi(n, block2, i2) ==> block1 == block2 && i1 == i2
    ensures Lo(n, block1, i1) != Hi(n, block2, i2)
  {
    var h := n / 2;
    ModUnique(Lo(n, block1, i1), n, block1, i1);
    ModUnique(Lo(n, block2, i2), n, block2, i2);
    ModUnique(Hi(n, block1, i1), n, block1, i1 + h);
    ModUnique(Hi(n, block2, i2), n, block2, i2 + h);
  }

  /** The twiddle entries a pass over blocks of `2h` points uses: entry
      `m * i` for pair `i`, where `m` is the number of blocks. */
  function Strided(tw: seq<nat>, m: nat, h: nat): (ws: seq<nat>)
    requires 1 <= m && m * h <= |tw|
    ensures |ws| == h
  {
    seq(h, i requires 0 <= i < h => MulLess(m, i, h); tw[m * i])
  }

  /** One block of a pass: pair `j` combines the values `j` and `j + h`
      with twiddle entry `ws[j]`; the butterfly `bf(lower, upper, w)`
      returns the new lower and upper values. */
  function Butterflies<T>(b: seq<T>, ws: seq<nat>, bf: (T, T, nat) -> (T, T)): (r: seq<T>)
    requires |b| == 2 * |ws|
    ensures |r| == |b|
  {
    var h := |ws|;
    seq(2 * h, j requires 0 <= j < 2 * h =>
      if j < h then bf(b[j], b[j + h], ws[j]).0 else bf(b[j - h], b[j], ws[j - h]).1)
  }

  /** A pass over consecutive blocks of `2 |ws|` values; a tail shorter
      than a block is left alone. */
  function StageSpec<T>(a: seq<T>, ws: seq<nat>, bf: (T, T, nat) -> (T, T)): (r: seq<T>)
    ensures |r| == |a|
    decreases |a|
  {
    if |ws| == 0 || |a| < 2 * |ws| then a
    else Butterflies(a[..2 * |ws|], ws, bf) + StageSpec(a[2 * |ws|..], ws, bf)
  }

  /** The pass over blocks of `n` points of a buffer of `|a|` points. */
  function Pass<T>(a: seq<T>, n: nat, tw: seq<nat>, bf: (T, T, nat) -> (T, T)): (r: seq<T>)
    requires PassShape(|a|, n) && |a| <= |tw|
    ensures |r| == |a|
  {
    BlocksFill(|a|, n);
    HalfBlocks(|a|, n);
    StageSpec(a, Strided(tw, |a| / n, n / 2), bf)
  }

  /** Adding one more block to a whole number of blocks adds its
      butterflies. */
  lemma {:induction false} StageSpecSnoc<T>(x: seq<T>, b: seq<T>, ws: seq<nat>, bf: (T, T, nat) -> (T, T), c: nat)
    requires |ws| >= 1 && |b| == 2 * |ws| && |x| == c * (2 * |ws|)
    ensures StageSpec(x + b, ws, bf) == StageSpec(x, ws, bf) + Butterflies(b, ws, bf)
    decreases c
  {
    var n := 2 * |ws|;
    if c == 0 {
      assert x + b == b;
      assert b[n..] == [];
      assert b[..n] == b;
    } else {
      MulPred(c, n);
      assert |x| >= n;
      assert (x + b)[..n] == x[..n];
      assert (x + b)[n..] == x[n..] + b;
      StageSpecSnoc(x[n..], b, ws, bf, c - 1);
    }
  }

  lemma MulPred(c: nat, n: nat)
    requires c >= 1
    ensures (c - 1) * n == c * n - n && c * n >= n
  {
  }

  /** Pair `i` of block `block` in a pass: the lower value becomes the
      first output of the butterfly of the pair's two values and its
      twiddle entry, the upper value the second. */
  lemma {:induction false} StageSpecAt<T>(a: seq<T>, ws: seq<nat>, bf: (T, T, nat) -> (T, T), block: nat, i: nat)
    requires |ws| >= 1 && i < |ws| && Lo(2 * |ws|, block, 2 * |ws|) <= |a|
    ensures var n := 2 * |ws|; var lo, hi := Lo(n, block, i), Hi(n, block, i);
      && hi < |a|
      && StageSpec(a, ws, bf)[lo] == bf(a[lo], a[hi], ws[i]).0
      && StageSpec(a, ws, bf)[hi] == bf(a[lo], a[hi], ws[i]).1
    decreases block
  {
    var n, h := 2 * |ws|, |ws|;
    if block > 0 {
      assert Lo(n, block, i) == Lo(n, block - 1, i) + n;
      assert Lo(n, block - 1, n) + n == Lo(n, block, n);
      StageSpecAt(a[n..], ws, bf, block - 1, i);
    }
  }

  /** The inner loop of a pass, for the block of `n` points at `base`:
      pair `i` reads `output[ilo]` and `output[ihi]` and writes back the
      butterfly with twiddle entry `tw[m * i]`. Only the block changes. */
  method ButterflyBlock<T>(output: array<T>, base: nat, n: nat, m: nat, tw: seq<nat>, bf: (T, T, nat) -> (T, T))
    requires n >= 2 && n % 2 == 0 && base + n <= output.Length
    requires 1 <= m && m * (n / 2) <= |tw|
    modifies output
    ensures output[..] == old(output[..base])
      + Butterflies(old(output[base..base + n]), Strided(tw, m, n / 2), bf)
      + old(output[base + n..])
  {
    ghost var o := output[..];
    ghost var b := o[base..base + n];
    ghost var ws := Strided(tw, m, n / 2);
    ghost var r := Butterflies(b, ws, bf);
    var h := n / 2;
    PartialStart(o, base, b, r, h);
    for i := 0 to h
      invariant output[..] == Window(o, base, b, r, h, i)
    {
      var w := Twiddle(tw, m, h, i);
      CombinePair(output, o, base, b, r, ws, h, i, w, bf);
    }
    PartialDone(b, r, h);
  }

  /** Pair `i` of the block at `base`: reads `output[ilo]` and
      `output[ihi]`, half a block apart, and writes back the butterfly of
      the two with twiddle entry `w`. */
  method CombinePair<T>(output: array<T>, ghost o: seq<T>, base: nat, ghost b: seq<T>, ghost r: seq<T>,
                        ghost ws: seq<nat>, h: nat, i: nat, w: nat, bf: (T, T, nat) -> (T, T))
    requires base + 2 * h <= output.Length == |o| && |b| == 2 * h && |ws| == h && i < h
    requires r == Butterflies(b, ws, bf) && w == ws[i]
    requires output[..] == Window(o, base, b, r, h, i)
    modifies output
    ensures output[..] == Window(o, base, b, r, h, i + 1)
  {
    var ilo := base + i;
    var ihi := ilo + h;
    ghost var s := output[..];
    WindowAt(o, base, b, r, h, i);
    var lower := output[ilo];
    var upper := output[ihi];
    var pair := bf(lower, upper, w);
    PairOfBlock(b, ws, bf, i);
    PartialStep(o, base, b, r, h, i);
    output[ilo] := pair.0;
    output[ihi] := pair.1;
    assert output[..] == s[ilo := r[i]][ihi := r[i + h]];
  }

  /** Twiddle entry `m * i`, the one pair `i` of the pass uses. */
  function Twiddle(tw: seq<nat>, m: nat, h: nat, i: nat): (w: nat)
    requires 1 <= m && m * h <= |tw| && i < h
    ensures w == Strided(tw, m, h)[i]
  {
    MulLess(m, i, h);
    tw[m * i]
  }

  lemma PairOfBlock<T>(b: seq<T>, ws: seq<nat>, bf: (T, T, nat) -> (T, T), i: nat)
    requires |b| == 2 * |ws| && i < |ws|
    ensures bf(b[i], b[i + |ws|], ws[i]) == (Butterflies(b, ws, bf)[i], Butterflies(b, ws, bf)[i + |ws|])
  {
  }

  /** A block of `2h` values whose first `i` pairs hold their results `r`
      and the others their original values `b`. */
  function Partial<T>(b: seq<T>, r: seq<T>, h: nat, i: nat): (p: seq<T>)
    requires |b| == |r| == 2 * h
    ensures |p| == 2 * h
  {
    seq(2 * h, j requires 0 <= j < 2 * h => if j < i || h <= j < h + i then r[j] else b[j])
  }

  /** The whole array while pair `i` of the block at `base` is next. */
  ghost function Window<T>(o: seq<T>, base: nat, b: seq<T>, r: seq<T>, h: nat, i: nat): (s: seq<T>)
    requires base + 2 * h <= |o| && |b| == |r| == 2 * h
    ensures |s| == |o|
  {
    o[..base] + Partial(b, r, h, i) + o[base + 2 * h..]
  }

  lemma PartialStart<T>(o: seq<T>, base: nat, b: seq<T>, r: seq<T>, h: nat)
    requires base + 2 * h <= |o| && b == o[base..base + 2 * h] && |r| == 2 * h
    ensures o == Window(o, base, b, r, h, 0)
  {
    assert Partial(b, r, h, 0) == b;
    assert o == o[..base] + o[base..base + 2 * h] + o[base + 2 * h..];
  }

  /** Before pair `i` is combined, its two places still hold the block's
      original values. */
  lemma WindowAt<T>(o: seq<T>, base: nat, b: seq<T>, r: seq<T>, h: nat, i: nat)
    requires base + 2 * h <= |o| && |b| == |r| == 2 * h && i < h
    ensures Window(o, base, b, r, h, i)[base + i] == b[i]
    ensures Window(o, base, b, r, h, i)[base + i + h] == b[i + h]
  {
    assert Window(o, base, b, r, h, i)[base + i] == Partial(b, r, h, i)[i];
    assert Window(o, base, b, r, h, i)[base + i + h] == Partial(b, r, h, i)[i + h];
  }

  /** Writing the results of pair `i` into their places finishes the pair. */
  lemma PartialStep<T>(o: seq<T>, base: nat, b: seq<T>, r: seq<T>, h: nat, i: nat)
    requires base + 2 * h <= |o| && |b| == |r| == 2 * h && i < h
    ensures Window(o, base, b, r, h, i)[base + i := r[i]][base + i + h := r[i + h]] == Window(o, base, b, r, h, i + 1)
  {
    var s := Window(o, base, b, r, h, i);
    var t := Window(o, base, b, r, h, i + 1);
    var u := s[base + i := r[i]][base + i + h := r[i + h]];
    forall k | 0 <= k < |t|
      ensures u[k] == t[k]
    {
      if k < base {
      } else if k < base + 2 * h {
        assert t[k] == Partial(b, r, h, i + 1)[k - base];
      } else {
      }
    }
  }

  lemma PartialDone<T>(b: seq<T>, r: seq<T>, h: nat)
    requires |b| == |r| == 2 * h
    ensures Partial(b, r, h, h) == r
  {
  }

  // The passes of a whole transform.

  /** A block of `2^k` points, `k >= 1`, fits a power-of-two buffer a
      whole number of times. */
  lemma PowerPassShape(size: nat, k: nat)
    requires IsPowerOfTwo(size) && k >= 1 && Pow2(k) <= size
    ensures PassShape(size, Pow2(k))
  {
    var K := BitLength(size - 1);
    if k > K {
      Pow2StrictlyMonotone(K, k);
    }
    Pow2Add(k, K - k);
    assert K == k + (K - k);
    var p, q := Pow2(k), Pow2(K - k);
    assert size == p * q;
    MulComm(p, q);
    ModUnique(size, p, q, 0);
    ModUnique(Pow2(k), 2, Pow2(k - 1), 0);
  }

  /** The passes of a transform from blocks of `2^k` points on: one pass
      per block size, doubling it until it exceeds the buffer. */
  function Stages<T>(a: seq<T>, k: nat, tw: seq<nat>, bf: (T, T, nat) -> (T, T)): (r: seq<T>)
    requires IsPowerOfTwo(|a|) && |a| <= |tw| && k >= 1
    ensures |r| == |a|
    decreases if Pow2(k) <= |a| then |a| - Pow2(k) + 1 else 0
  {
    if Pow2(k) > |a| then a
    else
      PowerPassShape(|a|, k);
      Stages(Pass(a, Pow2(k), tw, bf), k + 1, tw, bf)
  }

  /** In the pass over blocks of `n` points, pair `i` of block `block`
      combines the values at `ilo` and `ihi` with twiddle entry
      `size/n * i`, and the pass writes the butterfly's two results back to
      those two places. */
  lemma PassAt<T>(a: seq<T>, n: nat, tw: seq<nat>, bf: (T, T, nat) -> (T, T), block: nat, i: nat)
    requires PassShape(|a|, n) && |a| <= |tw| && block < |a| / n && i < n / 2
    ensures var lo, hi, w := Lo(n, block, i), Hi(n, block, i), (|a| / n) * i;
      && lo < hi < |a| && w < |a| / 2
      && Pass(a, n, tw, bf)[lo] == bf(a[lo], a[hi], tw[w]).0
      && Pass(a, n, tw, bf)[hi] == bf(a[lo], a[hi], tw[w]).1
  {
    PairInRange(|a|, n, block, i);
    PairInRange(|a|, n, block, n / 2 - 1);
    BlocksFill(|a|, n);
    HalfBlocks(|a|, n);
    var ws := Strided(tw, |a| / n, n / 2);
    assert 2 * |ws| == n;
    StageSpecAt(a, ws, bf, block, i);
  }

  /** One pass over the first `size` points: block by block, each block's
      pairs are combined in place; the points from `size` on are left
      alone. */
  method RunPass<T>(output: array<T>, size: nat, n: nat, tw: seq<nat>, bf: (T, T, nat) -> (T, T))
    requires PassShape(size, n) && size <= output.Length && size <= |tw|
    modifies output
    ensures output[..size] == Pass(old(output[..size]), n, tw, bf)
    ensures output[size..] == old(output[size..])
  {
    ghost var a := output[..];
    var m := size / n;
    var base := 0;
    var block := 0;
    while block < m
      invariant block <= m && base == Offset(n, block) <= size
      invariant output[..] == Combined(a, base, PassTwiddles(tw, size, n), bf)
    {
      base := CombineBlock(output, a, size, n, block, base, tw, bf);
      block := block + 1;
    }
    OffsetFills(size, n);
    PassFinished(a, output[..], size, n, tw, bf);
  }

  /** The start of block `block` of `n` points: `n * block`, counted up
      block by block. */
  function Offset(n: nat, block: nat): (o: nat)
  {
    if block == 0 then 0 else Offset(n, block - 1) + n
  }

  lemma {:induction false} OffsetIsProduct(n: nat, block: nat)
    ensures Offset(n, block) == n * block
  {
    if block > 0 {
      OffsetIsProduct(n, block - 1);
    }
  }

  /** The blocks of a pass end exactly at the end of the buffer. */
  lemma OffsetFills(size: nat, n: nat)
    requires PassShape(size, n)
    ensures Offset(n, size / n) == size
  {
    OffsetIsProduct(n, size / n);
    BlocksFill(size, n);
    MulComm(n, size / n);
  }

  /** The twiddle entries a pass over blocks of `n` points uses. */
  function PassTwiddles(tw: seq<nat>, size: nat, n: nat): (ws: seq<nat>)
    requires PassShape(size, n) && size <= |tw|
    ensures 2 * |ws| == n
  {
    BlocksFill(size, n);
    HalfBlocks(size, n);
    Strided(tw, size / n, n / 2)
  }

  /** The points of a pass once the blocks below `base` are combined. */
  ghost function Combined<T>(a: seq<T>, base: nat, ws: seq<nat>, bf: (T, T, nat) -> (T, T)): (o: seq<T>)
    requires base <= |a|
  {
    StageSpec(a[..base], ws, bf) + a[base..]
  }

  /** Combines the pairs of block `block`, the one at `base`, after the
      blocks before it. */
  method CombineBlock<T>(output: array<T>, ghost a: seq<T>, size: nat, n: nat, block: nat, base: nat,
                         tw: seq<nat>, bf: (T, T, nat) -> (T, T)) returns (next: nat)
    requires PassShape(size, n) && size <= output.Length == |a| && size <= |tw|
    requires block < size / n && base == Offset(n, block) <= size
    requires output[..] == Combined(a, base, PassTwiddles(tw, size, n), bf)
    modifies output
    ensures next == base + n == Offset(n, block + 1) <= size
    ensures output[..] == Combined(a, next, PassTwiddles(tw, size, n), bf)
  {
    BlockReady(size, n, block, base, tw);
    ghost var o := output[..];
    ghost var ws := PassTwiddles(tw, size, n);
    ButterflyBlock(output, base, n, size / n, tw, bf);
    assert output[..] == o[..base] + Butterflies(o[base..base + n], ws, bf) + o[base + n..];
    PassStep(a, o, output[..], ws, bf, n, block, base);
    next := base + n;
  }

  /** Once every block is combined, the first `size` points hold the pass
      and the rest is as it was. */
  lemma PassFinished<T>(a: seq<T>, o: seq<T>, size: nat, n: nat, tw: seq<nat>, bf: (T, T, nat) -> (T, T))
    requires PassShape(size, n) && size <= |a| == |o| && size <= |tw|
    requires o == Combined(a, size, PassTwiddles(tw, size, n), bf)
    ensures o[..size] == Pass(a[..size], n, tw, bf)
    ensures o[size..] == a[size..]
  {
    assert a[..size][..size] == a[..size];
  }

  /** Combining the pairs of one more block extends the finished blocks by
      that block's butterflies. */
  lemma PassStep<T>(a: seq<T>, o: seq<T>, o': seq<T>, ws: seq<nat>, bf: (T, T, nat) -> (T, T),
                    n: nat, block: nat, base: nat)
    requires n == 2 * |ws| >= 2 && base == n * block && base + n <= |a| == |o|
    requires o == Combined(a, base, ws, bf)
    requires o' == o[..base] + Butterflies(o[base..base + n], ws, bf) + o[base + n..]
    ensures o' == Combined(a, base + n, ws, bf)
  {
    assert o[..base] == StageSpec(a[..base], ws, bf);
    assert o[base..base + n] == a[base..base + n];
    assert o[base + n..] == a[base + n..];
    MulComm(n, block);
    StageSpecSnoc(a[..base], a[base..base + n], ws, bf, block);
    assert a[..base] + a[base..base + n] == a[..base + n];
  }

  /** Every block of a pass lies inside the buffer, and the pass's
      twiddle entries are there to be read. */
  lemma BlockReady(size: nat, n: nat, block: nat, base: nat, tw: seq<nat>)
    requires PassShape(size, n) && block < size / n && base == Offset(n, block) && size <= |tw|
    ensures base == n * block && base + n <= size
    ensures 1 <= size / n && size / n * (n / 2) <= |tw|
    ensures Strided(tw, size / n, n / 2) == PassTwiddles(tw, size, n)
  {
    OffsetIsProduct(n, block);
    PairInRange(size, n, block, n / 2 - 1);
    BlocksFill(size, n);
    HalfBlocks(size, n);
  }

  lemma MulComm(n: nat, b: nat)
    ensures n * b == b * n
  {
  }

  // The transform.

  /** The conjugate-and-normalise step that ends an inverse transform. */
  function Finish<T>(s: seq<T>, inverse: bool, normalise: T -> T): (r: seq<T>)
    ensures |r| == |s|
    ensures forall i :: 0 <= i < |s| ==> r[i] == if inverse then normalise(s[i]) else s[i]
  {
    if inverse then seq(|s|, i requires 0 <= i < |s| => normalise(s[i])) else s
  }

  /** What a transform leaves in the first `size` places of the output: the
      input, conjugated for an inverse transform and zero-padded, in
      bit-reversed order, through every butterfly pass, then conjugated and
      normalised for an inverse transform. */
  function Spectrum<T>(t: Transformer, input: seq<T>, inverse: bool, conj: T -> T, zero: T,
                       bf: (T, T, nat) -> (T, T), normalise: T -> T): (r: seq<T>)
    requires Ready(t)
    ensures |r| == t.size
  {
    var copied := Permuted(Padded(input, t.size, inverse, conj, zero), t.bitReverses);
    Finish(Stages(copied, 1, t.twiddles, bf), inverse, normalise)
  }

  /** `transform` (and so `fft` and `ifft`): the first `size` places of
      the output receive the spectrum and the rest is untouched. The copy
      indexes the output through the table and the passes index it up to
      `size`, so a shorter output buffer panics; an input longer than
      `size` runs off the table. */
  method Transform<T>(t: Transformer, input: seq<T>, output: array<T>, inverse: bool,
                      conj: T -> T, zero: T, bf: (T, T, nat) -> (T, T), normalise: T -> T)
    requires Ready(t) && t.size <= output.Length && |input| <= t.size
    modifies output
    ensures output[..t.size] == Spectrum(t, input, inverse, conj, zero, bf, normalise)
    ensures output[t.size..] == old(output[t.size..])
  {
    CopyIn(t.bitReverses, t.size, input, output, inverse, conj, zero);
    RunPasses(output, t.size, t.twiddles, bf);
    if inverse {
      Normalise(output, t.size, normalise);
    }
  }

  /** The butterfly passes of a transform, from blocks of two points up to
      the whole buffer, on its first `size` points. */
  method RunPasses<T>(output: array<T>, size: nat, tw: seq<nat>, bf: (T, T, nat) -> (T, T))
    requires IsPowerOfTwo(size) && size <= output.Length && size <= |tw|
    modifies output
    ensures output[..size] == Stages(old(output[..size]), 1, tw, bf)
    ensures output[size..] == old(output[size..])
  {
    var n := 2;
    ghost var k := 1;
    while n <= size
      invariant k >= 1 && n == Pow2(k)
      invariant Stages(output[..size], k, tw, bf) == Stages(old(output[..size]), 1, tw, bf)
      invariant output[size..] == old(output[size..])
      decreases size + 1 - n
    {
      PowerPassShape(size, k);
      RunPass(output, size, n, tw, bf);
      n := n * 2;
      k := k + 1;
    }
  }

  /** The end of an inverse transform: each of the first `size` points is
      conjugated and divided by the size. */
  method Normalise<T>(output: array<T>, size: nat, normalise: T -> T)
    requires size <= output.Length
    modifies output
    ensures output[..size] == Finish(old(output[..size]), true, normalise)
    ensures output[size..] == old(output[size..])
  {
    for i := 0 to size
      invariant output[..i] == Finish(old(output[..size]), true, normalise)[..i]
      invariant output[i..] == old(output[i..])
    {
      output[i] := normalise(output[i]);
    }
  }
}
