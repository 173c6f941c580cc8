// The Luby sequence 1, 1, 2, 1, 1, 2, 4, 1, ... and the generator for it.

module LubySequences {

  function Pow2(k: nat): (p: nat)
    ensures p >= 1
  {
    if k == 0 then 1 else 2 * Pow2(k - 1)
  }

  /** The greatest power of two which is not greater than `i`. */
  function TopPower(i: nat): (p: nat)
    requires i >= 1
    ensures 1 <= p <= i < 2 * p
  {
    if i == 1 then 1 else 2 * TopPower(i / 2)
  }

  /** The sequence by its definition: position 2^k - 1 holds 2^(k-1), and the part before it consists of two copies of
      the part before 2^(k-1). */
  function Luby(i: nat): nat
    requires i >= 1
  {
    var p := TopPower(i);
    if i == 2 * p - 1 then p else Luby(i - p + 1)
  }

  /** How often `u` can be divided by two. */
  function Exponent(u: nat): nat
    requires u >= 1
  {
    if u % 2 == 1 then 0 else Exponent(u / 2) + 1
  }

  /** The greatest power of two dividing `u`: the lowest bit which is set. */
  function LowBit(u: nat): nat
    requires u >= 1
  {
    if u % 2 == 1 then 1 else 2 * LowBit(u / 2)
  }

  /** The number of elements generated before the generator reaches `u`. */
  function Before(u: nat): nat
    requires u >= 1
  {
    if u == 1 then 0 else Before(u - 1) + Exponent(u - 1) + 1
  }

  // ---- powers of two ---------------------------------------------------------------

  lemma {:induction false} TopPowerIs(i: nat, k: nat)
    requires Pow2(k) <= i < 2 * Pow2(k)
    ensures TopPower(i) == Pow2(k)
  {
    if k > 0 {
      TopPowerIs(i / 2, k - 1);
    }
  }

  lemma {:induction false} LowBitIs(u: nat)
    requires u >= 1
    ensures LowBit(u) == Pow2(Exponent(u))
  {
    if u % 2 == 0 {
      LowBitIs(u / 2);
    }
  }

  lemma {:induction false} Pow2Grows(j: nat, k: nat)
    requires j < k
    ensures Pow2(j) < Pow2(k)
  {
    if j < k - 1 {
      Pow2Grows(j, k - 1);
    }
  }

  lemma {:induction false} ExponentOfPower(k: nat)
    ensures Exponent(Pow2(k)) == k
  {
    if k > 0 {
      ExponentOfPower(k - 1);
    }
  }

  lemma {:induction false} ExponentOfSum(k: nat, w: nat)
    requires 1 <= w < Pow2(k)
    ensures Exponent(Pow2(k) + w) == Exponent(w)
  {
    if w % 2 == 0 {
      assert (Pow2(k) + w) / 2 == Pow2(k - 1) + w / 2;
      ExponentOfSum(k - 1, w / 2);
    }
  }

  lemma {:induction false} LogOf(u: nat) returns (k: nat)
    requires u >= 1
    ensures Pow2(k) <= u < 2 * Pow2(k)
  {
    if u == 1 {
      k := 0;
    } else {
      k := LogOf(u / 2);
      k := k + 1;
    }
  }

  // ---- positions -------------------------------------------------------------------

  lemma {:induction false} BeforeGrows(u: nat, w: nat)
    requires 1 <= u <= w
    ensures Before(u) <= Before(w)
  {
    if u < w {
      BeforeGrows(u, w - 1);
    }
  }

  /** When the generator has left a power of two, it has generated one element less than twice that power. */
  lemma {:induction false} BeforePower(k: nat)
    ensures Before(Pow2(k) + 1) == 2 * Pow2(k) - 1
  {
    ExponentOfPower(k);
    if k > 0 {
      ExponentOfPower(k - 1);
      BeforePower(k - 1);
      BeforeSum(k - 1, Pow2(k - 1));
    }
  }

  /** Behind a power of two, the generator repeats what it did before. */
  lemma {:induction false} BeforeSum(k: nat, w: nat)
    requires 1 <= w <= Pow2(k) && Before(Pow2(k) + 1) == 2 * Pow2(k) - 1
    ensures Before(Pow2(k) + w) == Before(w) + 2 * Pow2(k) - 1
  {
    if w > 1 {
      BeforeSum(k, w - 1);
      ExponentOfSum(k, w - 1);
      assert Pow2(k) + w - 1 == Pow2(k) + (w - 1);
    }
  }

  /** Where the elements generated for u = 2^k are found in the sequence. */
  lemma PositionAtPower(k: nat, e: nat)
    requires e <= k
    ensures
      var n := Before(Pow2(k)) + e + 1;
      if e == k then n == 2 * Pow2(k) - 1
      else Pow2(k) <= n < 2 * Pow2(k) - 1 && n - Pow2(k) + 1 == Before(Pow2(k - 1)) + e + 1
  {
    BeforePower(k);
    ExponentOfPower(k);
    if e < k {
      BeforePower(k - 1);
      BeforeSum(k - 1, Pow2(k - 1));
    }
  }

  /** Where the elements generated for u = 2^k + w are found in the sequence. */
  lemma PositionAtSum(k: nat, w: nat, e: nat)
    requires 1 <= w < Pow2(k) && e <= Exponent(w)
    ensures
      var n := Before(Pow2(k) + w) + e + 1;
      Pow2(k + 1) <= n < 2 * Pow2(k + 1) - 1 && n - Pow2(k + 1) + 1 == Before(w) + e + 1
  {
    BeforePower(k);
    BeforeSum(k, w);
    BeforeGrows(w + 1, Pow2(k));
  }

  /** The element generated for `u` and the exponent `e` is the one at its position in the sequence. */
  lemma {:induction false} ElementIsLuby(u: nat, e: nat)
    requires u >= 1 && e <= Exponent(u)
    ensures Luby(Before(u) + e + 1) == Pow2(e)
    decreases u
  {
    hide Before, Exponent;
    var k := LogOf(u);
    var n := Before(u) + e + 1;
    if u == Pow2(k) {
      ExponentOfPower(k);
      PositionAtPower(k, e);
      TopPowerIs(n, k);
      if e < k {
        ExponentOfPower(k - 1);
        ElementIsLuby(Pow2(k - 1), e);
      }
    } else {
      var w := u - Pow2(k);
      ExponentOfSum(k, w);
      PositionAtSum(k, w, e);
      TopPowerIs(n, k + 1);
      ElementIsLuby(w, e);
    }
  }

  class LubySequence {
    var u: nat
    var v: nat

    // The number of calls of Next, and the exponent of v.
    ghost var calls: nat
    ghost var e: nat

    /** `v` is a power of two dividing `u`. */
    ghost predicate Valid()
      reads this
    {
      u >= 1 && e <= Exponent(u) && v == Pow2(e) && calls == Before(u) + e
    }

    constructor ()
      ensures Valid() && calls == 0
    {
      u, v, calls, e := 1, 1, 0, 0;
    }

    /** The next element of the sequence. */
    method Next() returns (r: nat)
      requires Valid()
      modifies this
      ensures Valid() && calls == old(calls) + 1 && r == Luby(calls + 1)
    {
      LowBitIs(u);
      if e < Exponent(u) {
        Pow2Grows(e, Exponent(u));
      }
      // The source computes the lowest set bit as u & -u.
      if LowBit(u) == v {
        u, v, e := u + 1, 1, 0;
      } else {
        v, e := 2 * v, e + 1;
      }
      calls := calls + 1;
      r := Current();
    }

    /** The current element of the sequence. */
    method Current() returns (r: nat)
      requires Valid()
      ensures r == Luby(calls + 1)
    {
      ElementIsLuby(u, e);
      r := v;
    }
  }
}
