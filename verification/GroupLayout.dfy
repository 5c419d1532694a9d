/**
 Where a block group keeps its superblock copy, bitmaps and inode table
 (ext4_utils/ext4_utils.c, ext4_utils/allocate.c).
 */
module GroupLayout {
  import opened Arithmetic

  function Power(b: nat, k: nat): nat {
    if k == 0 then 1 else b * Power(b, k - 1)
  }

  ghost predicate IsPowerOf(a: nat, b: nat) {
    exists k: nat :: k > 0 && a == Power(b, k)
  }

  /** Groups 0, 1 and powers of 3, 5 and 7 hold a superblock copy; without sparse_super all groups do. */
  ghost predicate HasSuperBlock(sparse: bool, bg: nat) {
    !sparse || bg <= 1 || IsPowerOf(bg, 3) || IsPowerOf(bg, 5) || IsPowerOf(bg, 7)
  }

  lemma {:induction false} PowerAtLeast(b: nat, k: nat)
    requires b > 1 && k > 0
    ensures Power(b, k) >= b && Power(b, k) % b == 0 && Power(b, k) / b == Power(b, k - 1)
    decreases k
  {
    ModOfMultiple(Power(b, k - 1), b);
    if k > 1 {
      PowerAtLeast(b, k - 1);
      Ordered(1, Power(b, k - 1), b);
    }
  }

  lemma {:induction false} PowerGrows(b: nat, j: nat, k: nat)
    requires b > 0 && j <= k
    ensures 0 < Power(b, j) <= Power(b, k)
    decreases k
  {
    if j < k {
      PowerGrows(b, j, k - 1);
      Ordered(1, b, Power(b, k - 1));
    } else if k > 0 {
      PowerGrows(b, 0, k - 1);
      Positive(b, Power(b, k - 1));
    }
  }

  /** The first four powers of 3, and so on, are those below 100. */
  lemma {:induction false} SmallPowers(a: nat)
    requires a < 100
    ensures IsPowerOf(a, 3) <==> a in {3, 9, 27, 81}
    ensures IsPowerOf(a, 5) <==> a in {5, 25}
    ensures IsPowerOf(a, 7) <==> a in {7, 49}
  {
    assert Power(3, 0) == Power(5, 0) == Power(7, 0) == 1;
    assert Power(3, 1) == 3 && Power(3, 2) == 9 && Power(3, 3) == 27 && Power(3, 4) == 81 && Power(3, 5) == 243;
    assert Power(5, 1) == 5 && Power(5, 2) == 25 && Power(5, 3) == 125;
    assert Power(7, 1) == 7 && Power(7, 2) == 49 && Power(7, 3) == 343;
    hide Power;
    if IsPowerOf(a, 3) {
      var k: nat :| k > 0 && a == Power(3, k);
      PowerGrows(3, 5, if k < 5 then 5 else k);
    }
    if IsPowerOf(a, 5) {
      var k: nat :| k > 0 && a == Power(5, k);
      PowerGrows(5, 3, if k < 3 then 3 else k);
    }
    if IsPowerOf(a, 7) {
      var k: nat :| k > 0 && a == Power(7, k);
      PowerGrows(7, 3, if k < 3 then 3 else k);
    }
  }

  /** The groups below 100 that hold a copy. */
  lemma {:induction false} FirstCopies(bg: nat)
    requires bg < 100
    ensures HasSuperBlock(true, bg) <==> bg in {0, 1, 3, 5, 7, 9, 25, 27, 49, 81}
  {
    SmallPowers(bg);
  }

  /** One round of the division loop. */
  lemma PowerStep(a: nat, b: nat)
    requires a > b > 1
    ensures IsPowerOf(a, b) <==> a % b == 0 && IsPowerOf(a / b, b)
  {
    assert Power(b, 1) == b * Power(b, 0) == b;
    if IsPowerOf(a, b) {
      var k: nat :| k > 0 && a == Power(b, k);
      PowerAtLeast(b, k);
      assert k != 1;
    }
    if a % b == 0 && IsPowerOf(a / b, b) {
      var k: nat :| k > 0 && a / b == Power(b, k);
      assert a == Power(b, k + 1);
    }
  }

  lemma PowerBase(a: nat, b: nat)
    requires a <= b && b > 1
    ensures IsPowerOf(a, b) <==> a == b
  {
    assert Power(b, 1) == b * Power(b, 0) == b;
    if IsPowerOf(a, b) {
      var k: nat :| k > 0 && a == Power(b, k);
      PowerAtLeast(b, k);
    }
  }

  /** is_power_of: repeated division decides whether a is a positive power of b. */
  method CheckPowerOf(a: nat, b: nat) returns (r: bool)
    requires b > 1
    ensures r <==> IsPowerOf(a, b)
  {
    var x: nat := a;
    while x > b
      invariant IsPowerOf(a, b) <==> IsPowerOf(x, b)
      decreases x
    {
      PowerStep(x, b);
      DivShrinks(x, b);
      hide IsPowerOf;
      if x % b != 0 {
        return false;
      }
      x := x / b;
    }
    PowerBase(x, b);
    r := x == b;
  }

  /** ext4_bg_has_super_block */
  method CheckSuperBlock(sparse: bool, bg: nat) returns (r: bool)
    ensures r <==> HasSuperBlock(sparse, bg)
  {
    if !sparse || bg == 0 || bg == 1 {
      return true;
    }
    r := CheckPowerOf(bg, 3);
    if !r {
      r := CheckPowerOf(bg, 5);
    }
    if !r {
      r := CheckPowerOf(bg, 7);
    }
  }
}
