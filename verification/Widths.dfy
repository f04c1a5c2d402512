/** The widths the program's whole numbers have, and what converting to them keeps. */
module Widths {
  const INT32 := 0x1_0000_0000

  const INT64 := 0x1_0000_0000_0000_0000

  type Int32 = n: int | -INT32 / 2 <= n < INT32 / 2

  predicate Fits64(n: int) {
    -INT64 / 2 <= n < INT64 / 2
  }

  /** The conversion to 32 bits keeps the low bits, read with their sign. */
  function ToInt32(n: int): Int32 {
    (n + INT32 / 2) % INT32 - INT32 / 2
  }

  function ToInt64(n: int): int {
    (n + INT64 / 2) % INT64 - INT64 / 2
  }

  lemma WrapsBy32(n: int)
    ensures ToInt32(n) == if n % INT32 < INT32 / 2 then n % INT32 else n % INT32 - INT32
    ensures (ToInt32(n) - n) % INT32 == 0
  {
    var (q, r) := (n / INT32, n % INT32);
    assert n == q * INT32 + r;
    if r < INT32 / 2 {
      assert n + INT32 / 2 == q * INT32 + (r + INT32 / 2);
    } else {
      assert n + INT32 / 2 == (q + 1) * INT32 + (r - INT32 / 2);
    }
  }

  /** Kept exactly when it fits; wrapping on the way to a sum comes to wrapping the sum. */
  lemma WrapsBy64(n: int, m: int)
    ensures Fits64(ToInt64(n)) && (ToInt64(n) == n <==> Fits64(n))
    ensures ToInt64(ToInt64(n) + ToInt64(m)) == ToInt64(n + m)
  {
    var (p, q) := ((n + INT64 / 2) / INT64, (m + INT64 / 2) / INT64);
    assert ToInt64(n) == n - p * INT64 && ToInt64(m) == m - q * INT64;
    assert ToInt64(n) + ToInt64(m) + INT64 / 2 == n + m + INT64 / 2 - (p + q) * INT64;
    SameLowBits(n + m + INT64 / 2, p + q);
  }

  lemma SameLowBits(n: int, k: int)
    ensures (n - k * INT64) % INT64 == n % INT64
  {
    assert n - k * INT64 == (n / INT64 - k) * INT64 + n % INT64;
  }
}
