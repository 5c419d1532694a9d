/** Division facts, and the rounding macros of ext4_utils/ext4_utils.h. */
module Arithmetic {
  function DivRoundUp(x: nat, y: nat): nat
    requires y > 0
  {
    (x + y - 1) / y
  }

  function Align(x: nat, y: nat): nat
    requires y > 0
  {
    y * DivRoundUp(x, y)
  }

  function Min(a: nat, b: nat): nat {
    if a < b then a else b
  }

  lemma Ordered(a: nat, b: nat, c: nat)
    requires a <= b
    ensures a * c <= b * c
  {
  }

  lemma Positive(a: nat, b: nat)
    requires a > 0 && b > 0
    ensures a * b > 0
  {
  }

  lemma DivUnique(x: nat, y: nat, q: nat, r: nat)
    requires r < y && x == q * y + r
    ensures x / y == q && x % y == r
  {
    var a, b := x / y, x % y;
    assert x == a * y + b;
    if a < q {
      Ordered(a + 1, q, y);
    } else if q < a {
      Ordered(q + 1, a, y);
    }
  }

  lemma ModOfMultiple(q: nat, y: nat)
    requires y > 0
    ensures (y * q) % y == 0 && (y * q) / y == q
  {
    DivUnique(y * q, y, q, 0);
  }

  lemma AlignBounds(x: nat, y: nat)
    requires y > 0
    ensures x <= Align(x, y) < x + y
    ensures Align(x, y) % y == 0
    ensures x % y == 0 ==> Align(x, y) == x
  {
    var q := DivRoundUp(x, y);
    assert (x + y - 1) == q * y + (x + y - 1) % y;
    ModOfMultiple(q, y);
    if x % y == 0 {
      var k := x / y;
      assert x == k * y;
      DivUnique(x + y - 1, y, k, y - 1);
    }
  }

  lemma DivShrinks(x: nat, y: nat)
    requires x > 0 && y > 1
    ensures 0 <= x / y < x
  {
    var q := x / y;
    assert x == q * y + x % y;
    if q >= x {
      Ordered(2, y, q);
    }
  }

  lemma DivAtLeast(x: nat, y: nat, q: nat)
    requires y > 0 && q * y <= x
    ensures x / y >= q
  {
    var a := x / y;
    assert x == a * y + x % y;
    if a < q {
      Ordered(a + 1, q, y);
    }
  }

  /** How many times y goes into x, by repeated subtraction. */
  function Whole(x: nat, y: nat): nat
    requires y > 0
    decreases x
  {
    if x < y then 0 else 1 + Whole(x - y, y)
  }

  lemma {:induction false} WholeIsDiv(x: nat, y: nat)
    requires y > 0
    ensures Whole(x, y) == x / y
    decreases x
  {
    if x < y {
      DivUnique(x, y, 0, x);
    } else {
      WholeIsDiv(x - y, y);
      var q, r := (x - y) / y, (x - y) % y;
      assert x - y == q * y + r;
      DivUnique(x, y, q + 1, r);
    }
  }

  function Pow2(k: nat): (n: nat)
    ensures n > 0
  {
    if k == 0 then 1 else 2 * Pow2(k - 1)
  }

  lemma {:induction false} Pow2Sum(a: nat, b: nat)
    ensures Pow2(a + b) == Pow2(a) * Pow2(b)
    decreases b
  {
    if b > 0 {
      Pow2Sum(a, b - 1);
    }
  }

  lemma {:induction false} Pow2Grows(a: nat, b: nat)
    requires a <= b
    ensures Pow2(a) <= Pow2(b)
    decreases b
  {
    if a < b {
      Pow2Grows(a, b - 1);
    }
  }
}
