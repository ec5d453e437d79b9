/** Bit operations on unbounded non-negative integers. */
module Bits {
  function Bit(m: nat, i: nat): bool
    decreases i
  {
    if i == 0 then m % 2 == 1 else Bit(m / 2, i - 1)
  }

  function Or(a: nat, b: nat): nat
    decreases a + b
  {
    if a == 0 then b else if b == 0 then a
    else 2 * Or(a / 2, b / 2) + if a % 2 == 1 || b % 2 == 1 then 1 else 0
  }

  function And(a: nat, b: nat): nat
    decreases a
  {
    if a == 0 || b == 0 then 0
    else 2 * And(a / 2, b / 2) + if a % 2 == 1 && b % 2 == 1 then 1 else 0
  }

  /** 1 << i. */
  function Power(i: nat): nat {
    if i == 0 then 1 else 2 * Power(i - 1)
  }

  /** int.bit_length. */
  function BitLength(m: nat): nat {
    if m == 0 then 0 else 1 + BitLength(m / 2)
  }

  /** The number of bits set. */
  function Count(m: nat): nat {
    if m == 0 then 0 else m % 2 + Count(m / 2)
  }

  lemma {:induction false} ZeroBit(i: nat)
    ensures !Bit(0, i)
  {
    if i > 0 {
      ZeroBit(i - 1);
    }
  }

  lemma {:induction false} OrBit(a: nat, b: nat, i: nat)
    ensures Bit(Or(a, b), i) <==> Bit(a, i) || Bit(b, i)
    decreases i
  {
    ZeroBit(i);
    if a != 0 && b != 0 {
      var o := Or(a, b);
      assert o / 2 == Or(a / 2, b / 2);
      if i > 0 {
        OrBit(a / 2, b / 2, i - 1);
      }
    }
  }

  lemma {:induction false} AndBit(a: nat, b: nat, i: nat)
    ensures Bit(And(a, b), i) <==> Bit(a, i) && Bit(b, i)
    decreases i
  {
    ZeroBit(i);
    if a != 0 && b != 0 {
      var o := And(a, b);
      assert o / 2 == And(a / 2, b / 2);
      if i > 0 {
        AndBit(a / 2, b / 2, i - 1);
      }
    }
  }

  lemma {:induction false} PowerBit(k: nat, i: nat)
    ensures Bit(Power(k), i) <==> i == k
    decreases k
  {
    if k == 0 {
      if i > 0 {
        ZeroBit(i - 1);
      }
    } else {
      assert Power(k) / 2 == Power(k - 1);
      if i > 0 {
        PowerBit(k - 1, i - 1);
      }
    }
  }

  /** A number is determined by its bits. */
  lemma {:induction false} SameBits(a: nat, b: nat)
    requires forall i: nat :: Bit(a, i) <==> Bit(b, i)
    ensures a == b
    decreases a + b
  {
    if a != 0 || b != 0 {
      assert Bit(a, 0) <==> Bit(b, 0);
      forall i: nat ensures Bit(a / 2, i) <==> Bit(b / 2, i) {
        assert Bit(a, i + 1) <==> Bit(b, i + 1);
      }
      SameBits(a / 2, b / 2);
    }
  }

  lemma {:induction false} BitBelowLength(m: nat, i: nat)
    requires Bit(m, i)
    ensures i < BitLength(m)
    decreases i
  {
    if m == 0 {
      ZeroBit(i);
    } else if i > 0 {
      BitBelowLength(m / 2, i - 1);
    }
  }

  lemma {:induction false} SomeBit(m: nat)
    requires m > 0
    ensures exists i: nat :: Bit(m, i)
  {
    if m % 2 == 1 {
      assert Bit(m, 0);
    } else {
      SomeBit(m / 2);
      var i: nat :| Bit(m / 2, i);
      assert Bit(m, i + 1);
    }
  }

  lemma {:induction false} AndSelf(a: nat)
    ensures And(a, a) == a
  {
    if a != 0 {
      AndSelf(a / 2);
    }
  }

  /** tmp & (tmp - 1) clears exactly one bit. */
  lemma {:induction false} ClearLowest(m: nat)
    requires m > 0
    ensures And(m, m - 1) < m && Count(And(m, m - 1)) == Count(m) - 1
  {
    if m % 2 == 1 {
      assert (m - 1) / 2 == m / 2;
      AndSelf(m / 2);
      assert And(m, m - 1) == 2 * (m / 2);
      CountDouble(m / 2);
    } else {
      assert (m - 1) / 2 == m / 2 - 1;
      ClearLowest(m / 2);
      assert And(m, m - 1) == 2 * And(m / 2, m / 2 - 1);
      CountDouble(And(m / 2, m / 2 - 1));
    }
  }

  lemma CountDouble(h: nat)
    ensures Count(2 * h) == Count(h)
  {
    assert 2 * h / 2 == h && 2 * h % 2 == 0;
  }
}
