/** The table-driven Q(sqrt(x)) and its inverse (csi/incsi/cpp/q_approx.c), on IEEE-754 bit patterns.

    The two tables are parameters: q_sqrt_approx is any non-increasing sequence of patterns of numbers in
    [0, 1/2] that ends in 0.
 */
module QFunc {

  type u64 = x: int | 0 <= x < 0x1_0000_0000_0000_0000

  const SIGN: nat := 0x8000_0000_0000_0000
  const INFINITY: nat := 0x7ff0_0000_0000_0000
  const HALF: u64 := 0x3fe0_0000_0000_0000
  /** 2^-24, the smallest bit error rate for which the inverse searches. */
  const SMALL: u64 := (1023 - 24) * 0x10_0000_0000_0000

  const Q_TABLE_LEN: nat := 26
  const Q_TABLE_BITS: nat := 16
  const ENTRIES: nat := Q_TABLE_LEN * Q_TABLE_BITS
  const QINV_TABLE_LEN: nat := 691

  /** x > y as doubles, for x not negative and not a NaN. */
  predicate Greater(x: u64, y: u64)
    requires x <= INFINITY
  {
    if y % SIGN > INFINITY then false else if y < SIGN then x > y else x > 0 || y > SIGN
  }

  predicate IsTable(q: seq<u64>) {
    && |q| == ENTRIES && q[ENTRIES - 1] == 0
    && (forall i :: 0 <= i < ENTRIES ==> q[i] <= HALF)
    && (forall i, j :: 0 <= i <= j < ENTRIES ==> q[i] >= q[j])
  }

  /** One rounding shift: exponent and mantissa together, rounded to four bits of mantissa, counted from
      the pattern of 2^-15.
   */
  function Rounded(u: u64): int {
    (u / 0x8000_0000_0000 % 0x1_0000 + 1) / 2 - (1023 - 15) * 16
  }

  /** The table extended to all indices. */
  function Entry(q: seq<u64>, k: int): u64
    requires IsTable(q)
  {
    if k < 0 then HALF else if k < ENTRIES then q[k] else 0
  }

  /** The specification of qfunc_sqrt. */
  function Sqrt(q: seq<u64>, snr: u64): u64
    requires IsTable(q)
  {
    Entry(q, Rounded(snr))
  }

  lemma FieldsJoin(u: u64)
    ensures u / 0x8000_0000_0000 % 0x1_0000 == u / 0x10_0000_0000_0000 % 0x800 * 32 + u / 0x8000_0000_0000 % 0x20
  {
    var v := u / 0x8000_0000_0000;
    assert u / 0x10_0000_0000_0000 == v / 32;
  }

  /** qfunc_sqrt, on the bit pattern of its argument. */
  method QfuncSqrt(q: seq<u64>, snr: u64) returns (r: u64)
    requires IsTable(q)
    ensures r == Sqrt(q, snr)
  {
    var exponent := snr / 0x10_0000_0000_0000 % 0x800;
    var realExp := exponent - 1023 + 15;
    var mantissa := snr / 0x8000_0000_0000 % 0x20;
    FieldsJoin(snr);
    if mantissa == 31 {
      realExp := realExp + 1;
      mantissa := 0;
    } else {
      mantissa := (mantissa + 1) / 2;
    }
    assert Rounded(snr) == realExp * 16 + mantissa && 0 <= mantissa < 16;
    if realExp < 0 {
      return HALF;
    } else if realExp >= Q_TABLE_LEN {
      return 0;
    }
    var index := realExp * 16 + mantissa;
    return q[index];
  }

  lemma RoundedMono(u: u64, v: u64)
    requires u <= v < SIGN
    ensures Rounded(u) <= Rounded(v)
  {}

  /** More signal, no more errors: qfunc_sqrt never increases on non-negative arguments. */
  lemma Antitone(q: seq<u64>, u: u64, v: u64)
    requires IsTable(q) && u <= v < SIGN
    ensures Sqrt(q, u) >= Sqrt(q, v)
  {
    RoundedMono(u, v);
    hide Rounded;
  }

  /** The pattern qfuncinv_sqrd makes of a table index. */
  function Encode(k: nat): u64
    requires k < ENTRIES
  {
    (k + (1023 - 15) * 16) * 0x1_0000_0000_0000
  }

  /** qfunc_sqrt reads back exactly the entry whose index was encoded. */
  lemma EncodeRoundTrip(q: seq<u64>, k: nat)
    requires IsTable(q) && k < ENTRIES
    ensures Rounded(Encode(k)) == k && Sqrt(q, Encode(k)) == q[k]
  {
    var v := k + (1023 - 15) * 16;
    assert Encode(k) / 0x8000_0000_0000 == 2 * v;
  }

  /** Entry k is the first one that does not exceed `ber`. */
  predicate First(q: seq<u64>, ber: u64, k: int)
    requires IsTable(q)
  {
    && 0 <= k < ENTRIES && q[k] <= ber
    && forall j :: 0 <= j < k ==> q[j] > ber
  }

  /** From bit error rate to signal and back: the largest table entry that does not exceed the rate. */
  lemma LargestEntry(q: seq<u64>, ber: u64, k: int)
    requires IsTable(q) && First(q, ber, k)
    ensures Sqrt(q, Encode(k)) in q && Sqrt(q, Encode(k)) <= ber
    ensures forall e :: e in q && e <= ber ==> e <= Sqrt(q, Encode(k))
  {
    EncodeRoundTrip(q, k);
    hide Rounded, Encode;
  }

  /** The encoded index is where the rate first drops to `ber`: a non-negative signal has at most that rate
      exactly when it rounds to that point or beyond.
   */
  lemma Threshold(q: seq<u64>, ber: u64, k: int, snr: u64)
    requires IsTable(q) && First(q, ber, k) && ber < HALF
    ensures Sqrt(q, snr) <= ber <==> Rounded(snr) >= Rounded(Encode(k))
  {
    EncodeRoundTrip(q, k);
    hide Rounded, Encode;
  }

  /** qfuncinv_sqrd, on bit patterns. Below 2^-24 it is a plain look-up by the exponent; what it does with a
      sign or a NaN follows from the comparison.
   */
  method QfuncInvSqrd(q: seq<u64>, qinv: seq<u64>, ber: u64) returns (r: u64)
    requires IsTable(q) && |qinv| == QINV_TABLE_LEN
    ensures var size := ber % SIGN; size < SMALL ==>
      r == qinv[if size < (1023 - 715) * 0x10_0000_0000_0000 then 0 else size / 0x10_0000_0000_0000 - (1023 - 715)]
    ensures ber % SIGN > INFINITY ==> r == Encode(0)
    ensures ber >= SIGN && SMALL <= ber % SIGN <= INFINITY ==> r == Encode(ENTRIES - 1)
    ensures SMALL <= ber <= INFINITY ==> exists k :: First(q, ber, k) && r == Encode(k)
    ensures SMALL <= ber <= INFINITY ==>
      && Sqrt(q, r) in q && Sqrt(q, r) <= ber
      && (forall e :: e in q && e <= ber ==> e <= Sqrt(q, r))
  {
    hide Rounded, Sqrt;
    var exponent := ber / 0x10_0000_0000_0000 % 0x800;
    var realExp := exponent - 1023 + 715;
    if realExp < 0 {
      return qinv[0];
    } else if realExp < QINV_TABLE_LEN {
      return qinv[realExp];
    }
    var min, max := 0, Q_TABLE_LEN * Q_TABLE_BITS - 1;
    var cur := (min + max) / 2;
    while min < max
      invariant 0 <= min <= max < ENTRIES && cur == (min + max) / 2
      invariant ber <= INFINITY ==> (forall j :: 0 <= j < min ==> q[j] > ber) && q[max] <= ber
      invariant ber % SIGN > INFINITY ==> min == 0
      invariant ber >= SIGN && SMALL <= ber % SIGN <= INFINITY ==> max == ENTRIES - 1
      decreases max - min
    {
      if Greater(q[cur], ber) {
        min := cur + 1;
      } else {
        max := cur;
      }
      cur := (min + max) / 2;
    }
    if SMALL <= ber <= INFINITY {
      assert First(q, ber, cur);
      LargestEntry(q, ber, cur);
    }
    r := Encode(cur);
  }
}
