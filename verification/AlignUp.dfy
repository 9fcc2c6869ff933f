/** `align_up` works on bit masks.  It is tied here to arithmetic rounding, for
    every address and every power of two of a 64-bit machine. */
module AlignUp {
  import opened Prelude

  const WORD := 64

  function Pow2(k: nat): (p: nat)
    ensures p > 0
  {
    if k == 0 then 1 else 2 * Pow2(k - 1)
  }

  /** Bitwise conjunction of two naturals. */
  function And(a: nat, b: nat): nat
    decreases a
  {
    if a == 0 || b == 0 then 0
    else (if a % 2 == 1 && b % 2 == 1 then 1 else 0) + 2 * And(a / 2, b / 2)
  }

  /** Bitwise complement of an `n`-bit word. */
  function Not(a: nat, n: nat): nat
    requires a < Pow2(n)
  {
    Pow2(n) - 1 - a
  }

  /** `(addr + align - 1) & !(align - 1)` on `n`-bit words. */
  function MaskedAt(addr: nat, align: nat, n: nat): nat
    requires 0 < align <= Pow2(n)
  {
    And(addr + align - 1, Not(align - 1, n))
  }

  function Masked(addr: nat, align: nat): nat
    requires 0 < align <= Pow2(WORD)
  {
    MaskedAt(addr, align, WORD)
  }

  /** The least multiple of `align` that is at least `addr`. */
  function RoundUp(addr: nat, align: nat): (r: nat)
    requires align > 0
    ensures addr <= r < addr + align
  {
    if addr % align == 0 then addr else addr + (align - addr % align)
  }

  lemma {:induction false} Pow2Monotone(k: nat, n: nat)
    requires k <= n
    ensures Pow2(k) <= Pow2(n)
    decreases n
  {
    if k < n {
      Pow2Monotone(k, n - 1);
    }
  }

  /** Splitting off the lowest bit. */
  lemma LowBit(x: nat, m: nat)
    requires m > 0
    ensures x % (2 * m) == x % 2 + 2 * (x / 2 % m)
  {
    var h := x / 2;
    var q, r := h / m, h % m;
    assert h == m * q + r;
    assert x == (2 * m) * q + (x % 2 + 2 * r);
    DivModUnique(x, 2 * m, q, x % 2 + 2 * r);
  }

  lemma DivModUnique(x: nat, m: nat, q: nat, r: nat)
    requires m > 0 && r < m && x == m * q + r
    ensures x / m == q && x % m == r
  {
    var a, b := x / m, x % m;
    assert x == m * a + b;
    assert a + 1 <= q ==> m * (a + 1) <= m * q;
    assert q + 1 <= a ==> m * (q + 1) <= m * a;
  }

  /** Masking with all bits from `k` up clears exactly the `k` low bits. */
  lemma {:induction false} MaskClearsLowBits(x: nat, k: nat, n: nat)
    requires k <= n && x < Pow2(n)
    ensures Pow2(k) <= Pow2(n)
    ensures And(x, Pow2(n) - Pow2(k)) == x - x % Pow2(k)
    decreases n
  {
    Pow2Monotone(k, n);
    var mask := Pow2(n) - Pow2(k);
    if x == 0 {
    } else if k > 0 {
      MaskClearsLowBits(x / 2, k - 1, n - 1);
      LowBit(x, Pow2(k - 1));
      assert mask % 2 == 0 && mask / 2 == Pow2(n - 1) - Pow2(k - 1);
      if mask == 0 {
        assert k == n by {
          if k < n {
            Pow2Monotone(k, n - 1);
          }
        }
        DivModUnique(x, Pow2(k), 0, x);
      }
    } else if n > 0 {
      MaskClearsLowBits(x / 2, 0, n - 1);
      assert mask % 2 == 1 && mask / 2 == Pow2(n - 1) - 1;
    }
  }

  predicate IsPowerOfTwo(align: nat) {
    exists k: nat :: k < WORD && align == Pow2(k)
  }

  lemma RoundDownIsRoundUp(addr: nat, align: nat)
    requires align > 0
    ensures (addr + align - 1) - (addr + align - 1) % align == RoundUp(addr, align)
  {
    var q, r := addr / align, addr % align;
    assert addr == align * q + r;
    if r == 0 {
      DivModUnique(addr + align - 1, align, q, align - 1);
    } else {
      assert align * (q + 1) == align * q + align;
      DivModUnique(addr + align - 1, align, q + 1, r - 1);
    }
  }

  lemma RoundUpIsMultiple(addr: nat, align: nat)
    requires align > 0
    ensures RoundUp(addr, align) % align == 0
  {
    var q, r := addr / align, addr % align;
    assert addr == align * q + r;
    if r == 0 {
      DivModUnique(addr, align, q, 0);
    } else {
      assert align * (q + 1) == align * q + align;
      DivModUnique(addr + (align - r), align, q + 1, 0);
    }
  }

  /** The smallest multiple of `align` that is not below `addr`. */
  ghost predicate IsLeastMultiple(up: nat, addr: nat, align: nat)
    requires align > 0
  {
    addr <= up && up % align == 0 && forall m: nat :: addr <= m && m % align == 0 ==> up <= m
  }

  lemma TimesMonotone(align: nat, a: nat, b: nat)
    requires a <= b
    ensures align * a <= align * b
  {
    assert align * b == align * a + align * (b - a);
  }

  lemma MultiplesCompare(align: nat, a: nat, b: nat)
    requires align > 0 && align * b < align * a + align
    ensures align * b <= align * a
  {
    assert align * (a + 1) == align * a + align;
    if b > a {
      TimesMonotone(align, a + 1, b);
    } else {
      TimesMonotone(align, b, a);
    }
  }

  lemma RoundUpIsLeast(addr: nat, align: nat)
    requires align > 0
    ensures IsLeastMultiple(RoundUp(addr, align), addr, align)
  {
    RoundUpIsMultiple(addr, align);
    var up := RoundUp(addr, align);
    forall m: nat | addr <= m && m % align == 0
      ensures up <= m
    {
      var a, b := m / align, up / align;
      assert m == align * a;
      assert up == align * b;
      MultiplesCompare(align, a, b);
    }
  }

  lemma MaskRoundsUp(addr: nat, align: nat, k: nat, n: nat)
    requires align == Pow2(k) && k <= n && addr + align - 1 < Pow2(n)
    ensures 0 < align <= Pow2(n)
    ensures MaskedAt(addr, align, n) == RoundUp(addr, align)
    ensures IsLeastMultiple(MaskedAt(addr, align, n), addr, align)
  {
    Pow2Monotone(k, n);
    MaskClearsLowBits(addr + Pow2(k) - 1, k, n);
    RoundDownIsRoundUp(addr, Pow2(k));
    RoundUpIsLeast(addr, Pow2(k));
  }

  /** The bit mask rounds up to the next multiple: the smallest one that is not
      below the address. */
  lemma MaskIsRoundUp(addr: nat, align: nat)
    requires IsPowerOfTwo(align) && addr + align - 1 < Pow2(WORD)
    ensures 0 < align <= Pow2(WORD)
    ensures Masked(addr, align) == RoundUp(addr, align)
    ensures IsLeastMultiple(Masked(addr, align), addr, align)
  {
    var k: nat :| k < WORD && align == Pow2(k);
    MaskRoundsUp(addr, align, k, WORD);
  }

  lemma PowerOfTwoBound(align: nat)
    requires IsPowerOfTwo(align)
    ensures 0 < align <= Pow2(WORD - 1)
  {
    var k: nat :| k < WORD && align == Pow2(k);
    Pow2Monotone(k, WORD - 1);
  }

  /** `align_up` on the addresses of the lower half, where it cannot overflow. */
  function Rounded(addr: nat, align: nat): (r: nat)
    requires IsPowerOfTwo(align) && addr < Pow2(WORD - 1)
    ensures r == RoundUp(addr, align)
  {
    PowerOfTwoBound(align);
    assert Pow2(WORD) == 2 * Pow2(WORD - 1);
    MaskIsRoundUp(addr, align);
    Masked(addr, align)
  }

  /** Of two powers of two the smaller divides the larger. */
  lemma {:induction false} SmallerPowerDivides(j: nat, k: nat)
    requires j <= k
    ensures Pow2(k) % Pow2(j) == 0
    decreases k
  {
    if j == k {
      DivModUnique(Pow2(k), Pow2(j), 1, 0);
    } else {
      SmallerPowerDivides(j, k - 1);
      var q := Pow2(k - 1) / Pow2(j);
      assert Pow2(k) == Pow2(j) * (2 * q);
      DivModUnique(Pow2(k), Pow2(j), 2 * q, 0);
    }
  }

  lemma PowersDivide(a: nat, b: nat)
    requires IsPowerOfTwo(a) && IsPowerOfTwo(b) && a <= b
    ensures b % a == 0
  {
    var j: nat :| j < WORD && a == Pow2(j);
    var k: nat :| k < WORD && b == Pow2(k);
    if k < j {
      Pow2Monotone(k + 1, j);
    }
    SmallerPowerDivides(j, k);
  }

  lemma MultipleIsTransitive(x: nat, b: nat, a: nat)
    requires a > 0 && b > 0 && x % b == 0 && b % a == 0
    ensures x % a == 0
  {
    var p, q := x / b, b / a;
    assert x == b * p && b == a * q;
    assert x == a * (q * p);
    DivModUnique(x, a, q * p, 0);
  }
}
