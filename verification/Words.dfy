/**
 Machine words and the little arithmetic every limb-level proof needs.

 Storing a value in a variable of type `u64` or `u128` obliges the verifier to
 show that it fits, so arithmetic that the C code relies on not to overflow is
 proved not to. `Wrap64` is written only where the C code depends on unsigned
 wrap-around or on truncation to the low word.
 */
module Words {

  type byte = x: int | 0 <= x < 0x100
  type u64 = x: int | 0 <= x < 0x1_0000_0000_0000_0000
  type u128 = x: int | 0 <= x < 0x1_0000_0000_0000_0000_0000_0000_0000_0000

  /** Truncation of an integer to its low 64 bits. */
  function Wrap64(x: int): u64 {
    x % 0x1_0000_0000_0000_0000
  }

  /** Euclidean division is unique. */
  lemma QuotRem(n: int, d: int, q: int, r: int)
    requires 0 < d && 0 <= r < d && n == d * q + r
    ensures n / d == q && n % d == r
  {
    var q', r' := n / d, n % d;
    assert d * (q - q') == r' - r;
    if q' < q {
      MulBelow(d, 1, d, q - q');
      assert false;
    }
    if q < q' {
      MulBelow(d, 1, d, q' - q);
      assert false;
    }
  }

  lemma MulBelow(a: int, b: int, x: int, y: int)
    requires 0 <= a <= x && 0 <= b <= y
    ensures 0 <= a * b <= x * y
  {
    assert a * b <= x * b;
    assert x * b <= x * y;
  }
}
