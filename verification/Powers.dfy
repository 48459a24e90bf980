/** Powers of two and bit masks. */
module Powers {

  function Pow2(k: nat): (r: nat)
    ensures r > 0
  {
    if k == 0 then 1 else 2 * Pow2(k - 1)
  }

  ghost predicate IsPow2(n: nat) {
    exists k: nat :: n == Pow2(k)
  }

  /** C's `&` on non-negative numbers. */
  function And(a: nat, b: nat): nat
    decreases a
  {
    if a == 0 || b == 0 then 0
    else 2 * And(a / 2, b / 2) + (if a % 2 == 1 && b % 2 == 1 then 1 else 0)
  }

  /** Masking with one less than a power of two is the remainder. */
  lemma {:induction false} MaskIsMod(a: nat, k: nat)
    ensures And(a, Pow2(k) - 1) == a % Pow2(k)
    decreases k
  {
    if a != 0 && k > 0 {
      var p := Pow2(k - 1);
      assert (2 * p - 1) / 2 == p - 1 && (2 * p - 1) % 2 == 1;
      MaskIsMod(a / 2, k - 1);
      assert 2 * ((a / 2) % p) + a % 2 == a % (2 * p) by { HalvedMod(a, p); }
    }
  }

  lemma HalvedMod(a: nat, p: nat)
    requires p > 0
    ensures 2 * ((a / 2) % p) + a % 2 == a % (2 * p)
  {
    var q, r := (a / 2) / p, (a / 2) % p;
    assert a == (2 * p) * q + (2 * r + a % 2) by {
      assert a / 2 == p * q + r;
    }
    ModUnique(a, 2 * p, q, 2 * r + a % 2);
  }

  lemma ModUnique(a: nat, m: nat, q: nat, r: nat)
    requires m > 0 && r < m && a == m * q + r
    ensures a % m == r
  {
    var d := a / m - q;
    assert m * d == r - a % m;
    MultipleSize(m, d);
  }

  lemma MultipleSize(m: nat, d: int)
    ensures d >= 1 ==> m * d >= m
    ensures d <= -1 ==> m * d <= 0 - m
  {
  }
}
