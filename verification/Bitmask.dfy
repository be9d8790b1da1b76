/** Sharer bitmasks: naturals with the bitwise operators the directory applies to them. */
module Bitmask {
  /** (m >> k) & 1 */
  predicate Bit(m: nat, k: nat) {
    if k == 0 then m % 2 == 1 else Bit(m / 2, k - 1)
  }

  /** 1 << k */
  function Single(k: nat): (m: nat)
    ensures m > 0
  {
    if k == 0 then 1 else 2 * Single(k - 1)
  }

  /** The mask with low bit `odd` above which stands `high`. */
  function Join(high: nat, odd: bool): nat {
    2 * high + if odd then 1 else 0
  }

  function Or(a: nat, b: nat): nat {
    if a == 0 && b == 0 then 0
    else Join(Or(a / 2, b / 2), a % 2 == 1 || b % 2 == 1)
  }

  function And(a: nat, b: nat): nat {
    if a == 0 || b == 0 then 0
    else Join(And(a / 2, b / 2), a % 2 == 1 && b % 2 == 1)
  }

  /** a & ~b */
  function AndNot(a: nat, b: nat): nat {
    if a == 0 then 0
    else Join(AndNot(a / 2, b / 2), a % 2 == 1 && b % 2 == 0)
  }

  function BitLength(m: nat): nat {
    if m == 0 then 0 else 1 + BitLength(m / 2)
  }

  lemma BitOfZero(k: nat)
    ensures !Bit(0, k)
  {}

  lemma BitOfJoin(high: nat, odd: bool, k: nat)
    ensures Bit(Join(high, odd), k) <==> if k == 0 then odd else Bit(high, k - 1)
  {}

  lemma {:induction false} BitOfSingle(j: nat, k: nat)
    ensures Bit(Single(j), k) <==> j == k
  {
    if j > 0 && k > 0 {
      BitOfSingle(j - 1, k - 1);
    } else if j == 0 && k > 0 {
      BitOfZero(k - 1);
    }
  }

  lemma {:induction false} BitOfOr(a: nat, b: nat, k: nat)
    ensures Bit(Or(a, b), k) <==> Bit(a, k) || Bit(b, k)
  {
    if a == 0 && b == 0 {
      BitOfZero(k);
    } else {
      BitOfJoin(Or(a / 2, b / 2), a % 2 == 1 || b % 2 == 1, k);
      if k > 0 {
        BitOfOr(a / 2, b / 2, k - 1);
      }
    }
  }

  lemma {:induction false} BitOfAndNot(a: nat, b: nat, k: nat)
    ensures Bit(AndNot(a, b), k) <==> Bit(a, k) && !Bit(b, k)
  {
    if a == 0 {
      BitOfZero(k);
    } else {
      BitOfJoin(AndNot(a / 2, b / 2), a % 2 == 1 && b % 2 == 0, k);
      if k > 0 {
        BitOfAndNot(a / 2, b / 2, k - 1);
      }
    }
  }

  /** A mask is determined by its bits. */
  lemma {:induction false} BitsDetermine(a: nat, b: nat)
    requires forall k: nat :: Bit(a, k) <==> Bit(b, k)
    ensures a == b
  {
    assert Bit(a, 0) <==> Bit(b, 0);
    if a != 0 || b != 0 {
      forall k: nat
        ensures Bit(a / 2, k) <==> Bit(b / 2, k)
      {
        assert Bit(a, k + 1) <==> Bit(b, k + 1);
      }
      BitsDetermine(a / 2, b / 2);
    }
  }

  /** A nonzero mask has a bit, the one below its bit length. */
  lemma {:induction false} TopBit(m: nat)
    requires m > 0
    ensures BitLength(m) > 0 && Bit(m, BitLength(m) - 1)
  {
    if m > 1 {
      TopBit(m / 2);
    }
  }

  lemma {:induction false} BitOfAnd(a: nat, b: nat, k: nat)
    ensures Bit(And(a, b), k) <==> Bit(a, k) && Bit(b, k)
  {
    if a == 0 || b == 0 {
      BitOfZero(k);
    } else {
      BitOfJoin(And(a / 2, b / 2), a % 2 == 1 && b % 2 == 1, k);
      if k > 0 {
        BitOfAnd(a / 2, b / 2, k - 1);
      }
    }
  }

  lemma AndSelf(a: nat)
    ensures And(a, a) == a
  {}

  lemma BitLengthOfSingle(k: nat)
    ensures BitLength(Single(k)) == k + 1
  {}

  /** The power-of-two test m & (m - 1) == 0 recognises exactly the one-bit masks. */
  lemma {:induction false} OneBitTest(m: nat)
    requires m > 0
    ensures And(m, m - 1) == 0 <==> m == Single(BitLength(m) - 1)
  {
    TopBit(m);
    if m % 2 == 1 {
      assert (m - 1) / 2 == m / 2;
      AndSelf(m / 2);
    } else {
      assert (m - 1) / 2 == m / 2 - 1;
      OneBitTest(m / 2);
    }
  }
}
