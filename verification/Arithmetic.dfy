/** Facts about remainders that the shard mapping and the circular scans share. */
module Arithmetic {
  lemma {:induction false} AtLeast(a: int, b: int, n: int)
    requires n > 0
    ensures a < b ==> b * n >= a * n + n
    decreases b - a
  {
    if a + 1 < b {
      AtLeast(a, b - 1, n);
    }
    assert (b - 1) * n + n == b * n;
  }

  lemma Unique(n: int, q: int, r: int, q': int, r': int)
    requires 0 <= r < n && 0 <= r' < n && q * n + r == q' * n + r'
    ensures q == q' && r == r'
  {
    AtLeast(q, q', n);
    AtLeast(q', q, n);
  }

  lemma Division(x: int, n: int)
    requires n > 0
    ensures x == (x / n) * n + x % n && 0 <= x % n < n
  {
  }

  lemma ModUnique(x: int, n: int, q: int, r: int)
    requires n > 0 && 0 <= r < n && x == q * n + r
    ensures x % n == r && x / n == q
  {
    Division(x, n);
    Unique(n, q, r, x / n, x % n);
  }

  /** Reducing twice is reducing once by the divisor. */
  lemma ModOfMod(x: int, n: int, k: int)
    requires n > 0 && k > 0
    ensures (x % (n * k)) % n == x % n
  {
    assert n * k > 0;
    var q, r := x / (n * k), x % (n * k);
    assert x == (q * k + r / n) * n + r % n by {
      assert q * (n * k) == (q * k) * n;
    }
    ModUnique(x, n, q * k + r / n, r % n);
  }

  lemma Multiple(a: int, b: int) returns (k: int)
    requires 0 < b <= a && a % b == 0
    ensures k > 0 && a == b * k && k == a / b
  {
    k := a / b;
  }

  lemma ShiftMod(x: int, i: int, n: int)
    requires n > 0
    ensures (x + i * n) % n == x % n
  {
    ModUnique(x + i * n, n, x / n + i, x % n);
  }

  /** The slot `j` places on from `start` in a ring of `n`. */
  function Slot(start: nat, j: nat, n: nat): (r: nat)
    requires start < n && j <= n
    ensures r == if start + j < n then start + j else start + j - n
  {
    ModUnique(start + j, n, if start + j < n then 0 else 1, if start + j < n then start + j else start + j - n);
    (start + j) % n
  }
}
