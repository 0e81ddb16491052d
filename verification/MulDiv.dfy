/** mul_u64_u64_div_u64 (compat/backport-5.9.c): a * b / c in 64-bit arithmetic, with the wrap-around of
    u64 written out.

    Products and quotients go through Mul, Div and Mod so that the proofs below can treat them one law at a
    time.
 */
module MulDiv {

  const WRAP: nat := 0x1_0000_0000_0000_0000

  type u64 = x: int | 0 <= x < WRAP

  function Wrap(x: nat): u64 { x % WRAP }

  function Mul(x: nat, y: nat): nat { x * y }

  function Div(x: nat, y: nat): nat
    requires y > 0
  {
    x / y
  }

  function Mod(x: nat, y: nat): nat
    requires y > 0
  {
    x % y
  }

  lemma MulAdd(x: nat, y: nat, z: nat)
    ensures Mul(x, y + z) == Mul(x, y) + Mul(x, z)
  {}

  lemma MulOne(x: nat)
    ensures Mul(x, 1) == x && Mul(1, x) == x && Mul(x, 0) == 0 && Mul(0, x) == 0
  {}

  lemma MulComm(x: nat, y: nat)
    ensures Mul(x, y) == Mul(y, x)
  {}

  lemma MulAssoc(x: nat, y: nat, z: nat)
    ensures Mul(x, Mul(y, z)) == Mul(Mul(x, y), z)
  {}

  lemma MulMono(x: nat, y: nat, z: nat)
    requires y <= z
    ensures Mul(x, y) <= Mul(x, z)
  {
    MulAdd(x, y, z - y);
  }

  lemma MulLess(a: nat, x: nat, b: nat, y: nat)
    requires a < x && b <= y && y > 0
    ensures Mul(a, b) < Mul(x, y)
  {
    hide Mul;
    MulMono(a, b, y);
    MulComm(a, y);
    MulComm(x, y);
    MulMono(y, a + 1, x);
    MulAdd(y, a, 1);
    MulOne(y);
  }

  lemma DivMod(x: nat, y: nat)
    requires y > 0
    ensures x == Mul(y, Div(x, y)) + Mod(x, y) && Mod(x, y) < y
  {}

  lemma DivBelow(n: nat, d: nat, q: nat)
    requires d > 0 && n < Mul(d, q)
    ensures Div(n, d) < q
  {
    hide Mul, Div, Mod;
    DivMod(n, d);
    if Div(n, d) >= q { MulMono(d, q, Div(n, d)); }
  }

  lemma DivIs(n: nat, d: nat, q: nat, r: nat)
    requires r < d && n == Mul(d, q) + r
    ensures Div(n, d) == q
  {
    hide Mul, Div, Mod;
    MulAdd(d, q, 1);
    MulOne(d);
    DivBelow(n, d, q + 1);
    DivMod(n, d);
    var k := Div(n, d);
    if k < q {
      MulMono(d, k + 1, q);
      MulAdd(d, k, 1);
    }
  }

  // ----- powers of two -----

  function Pow2(n: nat): (p: nat)
    ensures p >= 1
  {
    if n == 0 then 1 else 2 * Pow2(n - 1)
  }

  lemma {:induction false} Pow2Sum(m: nat, n: nat)
    ensures Pow2(m + n) == Mul(Pow2(m), Pow2(n))
  {
    if m == 0 {
      MulOne(Pow2(n));
    } else {
      Pow2Sum(m - 1, n);
      MulAssoc(2, Pow2(m - 1), Pow2(n));
    }
  }

  lemma Pow2At64()
    ensures Pow2(64) == WRAP
  {
    assert Pow2(16) == 0x1_0000 by {
      Pow2Sum(8, 8);
    }
    hide Pow2;
    Pow2Sum(16, 16);
    Pow2Sum(32, 32);
  }

  lemma {:induction false} Pow2Mono(m: nat, n: nat)
    requires m <= n
    ensures Pow2(m) <= Pow2(n)
  {
    if m < n { Pow2Mono(m, n - 1); }
  }

  /** ilog2, which is fls64(n) - 1: the position of the highest bit, and -1 of zero. */
  function ILog2(n: nat): (k: int)
    ensures k >= -1 && (k == -1 <==> n == 0)
    ensures n > 0 ==> Pow2(k) <= n < Pow2(k + 1)
  {
    if n == 0 then -1 else 1 + ILog2(n / 2)
  }

  /** The factors' highest bits bound their product. */
  lemma ProductFits(a: nat, b: nat)
    requires ILog2(a) + ILog2(b) <= 62
    ensures Mul(a, b) < WRAP
  {
    hide Mul, Pow2;
    if a == 0 || b == 0 {
      MulOne(a);
      MulOne(b);
    } else {
      var m, n := ILog2(a) + 1, ILog2(b) + 1;
      Pow2At64();
      Pow2Sum(m, n);
      Pow2Mono(m + n, 64);
      MulLess(a, Pow2(m), b, Pow2(n));
    }
  }

  /** Dropping as many low bits of one factor as the product has too many makes it fit. */
  lemma ShiftedFits(a: nat, b: nat, shift: nat)
    requires a < WRAP && shift == ILog2(a) + ILog2(b) - 62
    ensures Mul(a, Div(b, Pow2(shift))) < WRAP
  {
    hide Mul, Div, Pow2;
    Pow2At64();
    MulOne(Div(b, Pow2(shift)));
    if a > 0 {
      if ILog2(a) >= 64 { Pow2Mono(64, ILog2(a)); }
      var m, n := ILog2(a) + 1, 63 - ILog2(a);
      if b == 0 {
        DivMod(b, Pow2(shift));
        MulOne(Pow2(shift));
        DivBelow(b, Pow2(shift), 1);
        MulOne(a);
      } else {
        assert shift + n == ILog2(b) + 1;
        Pow2Sum(shift, n);
        DivBelow(b, Pow2(shift), Pow2(n));
        Pow2Sum(m, n);
        MulLess(a, Pow2(m), Div(b, Pow2(shift)), Pow2(n));
      }
    }
  }

  // ----- what the code computes, over the integers -----

  /** The exact quotient. */
  function Exact(a: nat, b: nat, c: nat): nat
    requires c > 0
  {
    Div(Mul(a, b), c)
  }

  /** How many low bits the code drops of the remainder and of the divisor; none when not positive. */
  function Shift(a: nat, b: nat, c: nat): int
    requires c > 0
  {
    if ILog2(a) + ILog2(b) > 62 then ILog2(a) + ILog2(Mod(b, c)) - 62 else 0
  }

  /** The divisor after the shift. */
  function Shifted(a: nat, b: nat, c: nat): nat
    requires c > 0 && Shift(a, b, c) > 0
  {
    Div(c, Pow2(Shift(a, b, c)))
  }

  /** The quotient with both operands of the second division shifted, before any wrap-around. */
  function Approximation(a: nat, b: nat, c: nat): nat
    requires c > 0 && Shift(a, b, c) > 0 && Shifted(a, b, c) > 0
  {
    Mul(Div(b, c), a) + Div(Mul(a, Div(Mod(b, c), Pow2(Shift(a, b, c)))), Shifted(a, b, c))
  }

  /** a * b / c over the integers, split at the quotient of b by c. */
  lemma QuotientSplits(a: nat, b: nat, c: nat)
    requires c > 0
    ensures Exact(a, b, c) == Mul(Div(b, c), a) + Div(Mul(a, Mod(b, c)), c)
  {
    hide Mul, Div, Mod;
    var q, t := Div(b, c), Mod(b, c);
    var x := Div(Mul(a, t), c);
    DivMod(b, c);
    DivMod(Mul(a, t), c);
    MulAdd(a, Mul(c, q), t);
    MulComm(a, Mul(c, q));
    MulAssoc(c, q, a);
    MulAdd(c, Mul(q, a), x);
    DivIs(Mul(a, b), c, Mul(q, a) + x, Mod(Mul(a, t), c));
  }

  /** Dropping low bits of numerator and divisor loses at most this much of the quotient ... */
  lemma DroppedBitsBelow(a: nat, t: nat, c: nat, p: nat)
    requires p > 0 && t < c && Div(c, p) > 0
    ensures Div(Mul(a, t), c) <= Div(Mul(a, Div(t, p)), Div(c, p)) + Div(a, Div(c, p)) + 1
  {
    hide Mul, Div, Mod;
    var t', c' := Div(t, p), Div(c, p);
    var y, q := Div(Mul(a, t'), c'), Div(a, c');
    var z := y + q + 2;
    DivMod(t, p);
    DivMod(c, p);
    DivMod(Mul(a, t'), c');
    DivMod(a, c');
    assert Mul(a, t) <= Mul(p, Mul(a, t') + a) by {
      MulAdd(p, t', 1);
      MulOne(p);
      MulMono(a, t, Mul(p, t' + 1));
      MulAssoc(a, p, t' + 1);
      MulComm(a, p);
      MulAssoc(p, a, t' + 1);
      MulAdd(a, t', 1);
      MulOne(a);
    }
    assert Mul(a, t') + a < Mul(c', z) by {
      MulAdd(c', y + q, 2);
      MulAdd(c', y, q);
      MulAdd(c', 1, 1);
      MulOne(c');
    }
    assert Mul(p, Mul(a, t') + a) < Mul(c, z) by {
      MulComm(p, Mul(a, t') + a);
      MulComm(p, Mul(c', z));
      MulLess(Mul(a, t') + a, Mul(c', z), p, p);
      MulAssoc(p, c', z);
      MulComm(Mul(p, c'), z);
      MulComm(c, z);
      MulMono(z, Mul(p, c'), c);
    }
    DivBelow(Mul(a, t), c, z);
  }

  /** ... and gains at most this much. */
  lemma DroppedBitsAbove(a: nat, t: nat, c: nat, p: nat)
    requires p > 0 && t < c && Div(c, p) > 0
    ensures Div(Mul(a, Div(t, p)), Div(c, p)) <= Div(Mul(a, t), c) + Div(a, Div(c, p)) + 1
  {
    hide Mul, Div, Mod;
    var t', c' := Div(t, p), Div(c, p);
    var x, q := Div(Mul(a, t), c), Div(a, c');
    DivMod(t, p);
    DivMod(c, p);
    DivMod(Mul(a, t), c);
    DivMod(a, c');
    if a == 0 {
      MulOne(t');
      MulOne(c');
      DivBelow(0, c', 1);
    } else {
      assert x + 1 <= a by {
        MulLess(t, c, a, a);
        MulComm(t, a);
        DivBelow(Mul(a, t), c, a);
      }
      assert Mul(p, Mul(a, t')) <= Mul(a, t) by {
        MulMono(a, Mul(p, t'), t);
        MulAssoc(a, p, t');
        MulComm(a, p);
        MulAssoc(p, a, t');
      }
      assert Mul(a, t) < Mul(p, Mul(c' + 1, x + 1)) by {
        MulAdd(c, x, 1);
        MulOne(c);
        MulAdd(p, c', 1);
        MulOne(p);
        MulComm(c, x + 1);
        MulMono(x + 1, c, Mul(p, c' + 1));
        MulComm(x + 1, Mul(p, c' + 1));
        MulAssoc(p, c' + 1, x + 1);
      }
      if Mul(a, t') >= Mul(c' + 1, x + 1) {
        MulMono(p, Mul(c' + 1, x + 1), Mul(a, t'));
        assert false;
      }
      assert Mul(c' + 1, x + 1) == Mul(c', x + 1) + x + 1 by {
        MulComm(c' + 1, x + 1);
        MulAdd(x + 1, c', 1);
        MulOne(x + 1);
        MulComm(x + 1, c');
      }
      assert Mul(c', q + 1) > a by {
        MulAdd(c', q, 1);
        MulOne(c');
      }
      MulAdd(c', x + 1, q + 1);
      DivBelow(Mul(a, t'), c', x + q + 2);
    }
  }

  predicate Within(x: int, y: int, d: nat) { x - d <= y <= x + d }

  function Bound(a: nat, b: nat, c: nat): nat
    requires c > 0 && Shift(a, b, c) > 0 && Shifted(a, b, c) > 0
  {
    Div(a, Shifted(a, b, c)) + 1
  }

  /** Over the integers the shifted quotient stays within a / (c >> shift) + 1 of the exact one. */
  lemma ApproximationBound(a: nat, b: nat, c: nat)
    requires c > 0 && Shift(a, b, c) > 0 && Shifted(a, b, c) > 0
    ensures Within(Exact(a, b, c), Approximation(a, b, c), Bound(a, b, c))
  {
    hide Mul, Div, Mod, Exact;
    QuotientSplits(a, b, c);
    DivMod(b, c);
    DroppedBitsBelow(a, Mod(b, c), c, Pow2(Shift(a, b, c)));
    DroppedBitsAbove(a, Mod(b, c), c, Pow2(Shift(a, b, c)));
  }

  /** When no bit of the divisor is left, the whole quotient of the remainder term is lost: less than a. */
  lemma LostRemainder(a: nat, b: nat, c: nat)
    requires c > 0 && a > 0
    ensures Mul(Div(b, c), a) <= Exact(a, b, c) < Mul(Div(b, c), a) + a
  {
    hide Mul, Div, Mod, Exact;
    QuotientSplits(a, b, c);
    DivMod(b, c);
    MulLess(Mod(b, c), c, a, a);
    MulComm(Mod(b, c), a);
    DivBelow(Mul(a, Mod(b, c)), c, a);
  }

  /** The shifted quotient exceeds the exact one only for a below 2^63: with the top bit of a set, every bit
      of the divisor counts.
   */
  lemma ExcessBelowTop(a: nat, b: nat, c: nat)
    requires c > 0 && a < WRAP && Shift(a, b, c) > 0 && Shifted(a, b, c) > 0
    requires Approximation(a, b, c) > Exact(a, b, c)
    ensures 2 * a < WRAP
  {
    hide Mul, Div, Mod, Exact, Pow2;
    var k := ILog2(a);
    Pow2At64();
    if a > 0 {
      if k >= 64 { Pow2Mono(64, k); }
      if k == 63 { TopBitLoses(a, b, c); }
      Pow2Mono(k + 1, 63);
      TwiceIs64();
    }
  }

  lemma TopBitLoses(a: nat, b: nat, c: nat)
    requires c > 0 && a > 0 && ILog2(a) == 63 && Shift(a, b, c) > 0 && Shifted(a, b, c) > 0
    ensures Approximation(a, b, c) <= Exact(a, b, c)
  {
    hide Mul, Div, Mod, Exact, Pow2;
    var t, p, c' := Mod(b, c), Pow2(Shift(a, b, c)), Shifted(a, b, c);
    QuotientSplits(a, b, c);
    DivMod(b, c);
    MulOne(p);
    DivBelow(t, p, 1);
    MulOne(a);
    MulOne(c');
    DivBelow(0, c', 1);
  }

  /** The excess is at most a if the shift leaves 1 of the divisor. */
  lemma Excess(a: nat, b: nat, c: nat)
    requires c > 0 && Shift(a, b, c) > 0 && Shifted(a, b, c) == 1
    ensures Approximation(a, b, c) <= Exact(a, b, c) + a
  {
    hide Mul, Div, Mod, Exact, Pow2;
    var t, p := Mod(b, c), Pow2(Shift(a, b, c));
    QuotientSplits(a, b, c);
    DivMod(b, c);
    DivMod(c, p);
    MulAdd(p, 1, 1);
    MulOne(p);
    DivBelow(t, p, 2);
    MulMono(a, Div(t, p), 1);
    MulOne(a);
    DivMod(Mul(a, Div(t, p)), 1);
    MulOne(Div(Mul(a, Div(t, p)), 1));
  }

  lemma TwiceIs64()
    ensures 2 * Pow2(63) == WRAP
  {
    Pow2At64();
  }

  /** The 64-bit result keeps that bound if and only if the shifted quotient itself fits in 64 bits: the
      exact quotient's fitting is not enough.
   */
  lemma WithinExactly(a: u64, b: u64, c: u64)
    requires c > 0 && Shift(a, b, c) > 0 && Shifted(a, b, c) > 0 && Exact(a, b, c) < WRAP
    ensures Within(Exact(a, b, c), Wrap(Approximation(a, b, c)), Bound(a, b, c)) <==> Approximation(a, b, c) < WRAP
  {
    hide Mul, Div, Mod, Exact, Approximation, Shift;
    var v, c' := Approximation(a, b, c), Shifted(a, b, c);
    ApproximationBound(a, b, c);
    if v >= WRAP {
      ExcessBelowTop(a, b, c);
      DivMod(a, c');
      if c' == 1 {
        Excess(a, b, c);
        MulOne(Div(a, 1));
      } else {
        MulComm(c', Div(a, c'));
        MulMono(Div(a, c'), 2, c');
        MulAdd(Div(a, c'), 1, 1);
        MulOne(Div(a, c'));
      }
      assert v - WRAP < WRAP;
      assert Wrap(v) == v - WRAP;
    }
  }

  /** A caller can tell beforehand: the bound holds whenever the exact quotient is below 2^64 by more than
      the bound itself.
   */
  lemma WithinWhenRoom(a: u64, b: u64, c: u64)
    requires c > 0 && Shift(a, b, c) > 0 && Shifted(a, b, c) > 0
    requires Exact(a, b, c) + Bound(a, b, c) < WRAP
    ensures Within(Exact(a, b, c), Wrap(Approximation(a, b, c)), Bound(a, b, c))
  {
    hide Mul, Div, Mod, Exact, Approximation, Shift;
    ApproximationBound(a, b, c);
  }

  lemma ILog2Is(n: nat, k: nat)
    requires Pow2(k) <= n < Pow2(k + 1)
    ensures ILog2(n) == k
  {
    hide ILog2;
    if ILog2(n) < k { Pow2Mono(ILog2(n) + 1, k); }
    if ILog2(n) > k { Pow2Mono(k + 1, ILog2(n)); }
  }

  /** 2^62 * 11 / 3 fits in 64 bits, and the code returns 0 for it. */
  lemma WrapsToZero()
    ensures var a, b, c := 0x4000_0000_0000_0000, 11, 3;
      Shift(a, b, c) == 1 && Shifted(a, b, c) == 1
      && 0 < Exact(a, b, c) < WRAP && Wrap(Approximation(a, b, c)) == 0
  {
    TwiceIs64();
    ILog2Is(0x4000_0000_0000_0000, 62);
    ILog2Is(11, 3);
    ILog2Is(2, 1);
  }

  /** The function itself. No product or sum but the first and the last can leave 64 bits. */
  method MulDivU64(a: u64, b0: u64, c0: u64) returns (r: u64)
    requires c0 > 0
    ensures Shift(a, b0, c0) <= 0 ==> r == Wrap(Exact(a, b0, c0))
    ensures Shift(a, b0, c0) > 0 && Shifted(a, b0, c0) == 0 ==> r == Wrap(Mul(Div(b0, c0), a))
    ensures Shift(a, b0, c0) > 0 && Shifted(a, b0, c0) > 0 ==>
      && r == Wrap(Approximation(a, b0, c0))
      && (Exact(a, b0, c0) < WRAP ==>
        (Within(Exact(a, b0, c0), r, Bound(a, b0, c0)) <==> Approximation(a, b0, c0) < WRAP))
  {
    hide Mul, Div, Mod, Pow2, ILog2, Bound, Wrap, Within;
    var b, c := b0, c0;
    var res: u64 := 0;
    ghost var whole := 0;
    WrapSum(0, 0);
    if ILog2(a) + ILog2(b) > 62 {
      QuotientSplits(a, b, c);
      DivMod(b, c);
      whole := Mul(Div(b, c), a);
      res := Wrap(Mul(Div(b, c), a));
      b := Mod(b, c);
      var shift := ILog2(a) + ILog2(b) - 62;
      if shift > 0 {
        ShiftedFits(a, b, shift);
        if Shifted(a, b0, c0) > 0 && Exact(a, b0, c0) < WRAP { WithinExactly(a, b0, c0); }
        Shrinks(b, Pow2(shift));
        Shrinks(c, Pow2(shift));
        b := Div(b, Pow2(shift));
        c := Div(c, Pow2(shift));
        if c == 0 {
          return res;
        }
      } else {
        ProductFits(a, b);
      }
    } else {
      ProductFits(a, b);
    }
    assert Mul(a, b) < WRAP;
    WrapSum(Mul(a, b), 0);
    WrapSum(whole, Div(Mul(a, b), c));
    r := Wrap(res + Div(Wrap(Mul(a, b)), c));
  }

  lemma Shrinks(x: nat, y: nat)
    requires y > 0
    ensures Div(x, y) <= x
  {
    hide Mul, Div, Mod;
    DivMod(x, y);
    MulComm(y, Div(x, y));
    MulMono(Div(x, y), 1, y);
    MulOne(Div(x, y));
  }

  lemma WrapSum(x: nat, y: nat)
    ensures Wrap(Wrap(x) + y) == Wrap(x + y)
    ensures x < WRAP ==> Wrap(x) == x
  {}
}
