/** Powers of two, and division with a divisor that is not a constant. */
module Arith {
  /** 2^k */
  function Pow(k: nat): (p: nat)
    ensures p >= 1
  {
    if k == 0 then 1 else 2 * Pow(k - 1)
  }

  lemma {:induction false} DivUnique(x: int, p: nat, q: int, r: int)
    requires p > 0 && x == q * p + r && 0 <= r < p
    ensures x / p == q && x % p == r
  {
    var d := x / p - q;
    assert x == p * (x / p) + x % p;
    assert p * d == r - x % p;
    if d != 0 {
      AtLeast(p, d);
      assert false;
    }
  }

  lemma {:induction false} AtLeast(p: nat, d: int)
    requires d != 0
    ensures p * d >= p || p * d + p <= 0
  {
    if d > 0 {
      Times(p, d - 1);
    } else {
      Times(p, -d - 1);
      assert p * d == -(p * -d);
    }
  }

  lemma {:induction false} Times(p: nat, e: nat)
    ensures p * (e + 1) >= p
  {
    if e > 0 {
      Times(p, e - 1);
      assert p * (e + 1) == p * e + p;
    }
  }

  /** ALIGN: the next multiple of align. */
  function AlignUp(x: nat, align: nat): nat
    requires align > 0
  {
    (x + align - 1) / align * align
  }

  lemma {:induction false} AlignUpIs(x: nat, align: nat)
    requires align > 0
    ensures x <= AlignUp(x, align) < x + align && AlignUp(x, align) % align == 0
    ensures x % align == 0 <==> AlignUp(x, align) == x
  {
    var q := (x + align - 1) / align;
    DivUnique(q * align, align, q, 0);
    if x % align == 0 {
      var k := x / align;
      assert x == k * align;
      DivUnique(x + align - 1, align, k, align - 1);
    }
  }

  lemma {:induction false} AlignedStays(x: nat, align: nat)
    requires align > 0 && x % align == 0
    ensures AlignUp(x, align) == x
  {
    AlignUpIs(x, align);
  }
}
