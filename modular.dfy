/** Facts about Euclidean remainder that slot arithmetic in ring buffers
    relies on. */
module Modular {
  lemma MulAtLeast(x: int, c: int)
    requires x >= 1 && c > 0
    ensures x * c >= c
  {
  }

  /** Division with remainder is unique. */
  lemma ModUnique(a: int, c: int, q: int, r: int)
    requires c > 0 && a == q * c + r && 0 <= r < c
    ensures a % c == r && a / c == q
  {
    var d, m := a / c, a % c;
    assert a == d * c + m;
    assert (q - d) * c == m - r;
    if q > d {
      MulAtLeast(q - d, c);
    } else if q < d {
      MulAtLeast(d - q, c);
    }
  }

  /** A remainder never exceeds what was divided. */
  lemma ModAtMost(i: nat, c: nat)
    requires c >= 1
    ensures i % c <= i
  {
    if i < c {
      ModUnique(i, c, 0, i);
    } else {
      assert i % c < c;
    }
  }

  /** An index below twice the modulus wraps at most once. */
  lemma ModSmall(i: nat, c: nat)
    requires c >= 1 && i < 2 * c
    ensures i % c == if i < c then i else i - c
  {
    if i < c {
      ModUnique(i, c, 0, i);
    } else {
      ModUnique(i, c, 1, i - c);
    }
  }

  /** Fewer than `c` steps apart, two indices have different slots. */
  lemma ModDistinct(a: nat, j: nat, c: nat)
    requires 0 < j < c
    ensures (a + j) % c != a % c
  {
    var q, r := a / c, a % c;
    if r + j < c {
      ModUnique(a + j, c, q, r + j);
    } else {
      ModUnique(a + j, c, q + 1, r + j - c);
    }
  }
}
