/** Attendance percentages with one decimal, represented exactly as integer
    tenths of a percent. The Java code computes `present / total * 100` as a
    double and rounds it with `Math.round(x * 10) / 10`, i.e. half-up to one
    decimal; on rationals that is `floor(1000 * present / total + 1/2)`
    tenths, which needs no floating point. */
module Percent {

  /** The percentage `present / total * 100` rounded half-up to one decimal,
      in tenths; 0 when there were no sessions. The result is the integer
      nearest to `1000 * present / total`, ties going up. */
  function PercentTenths(present: nat, total: nat): (r: nat)
    ensures total == 0 ==> r == 0
    ensures total > 0 ==> (2 * r - 1) * total <= 2000 * present < (2 * r + 1) * total
  {
    if total == 0 then 0
    else
      var n := 2000 * present + total;
      var d := 2 * total;
      var q := n / d;
      assert d * q <= n < d * q + d;
      q
  }

  /** Strict order of products with a common positive factor is the order
      of the other factors. */
  lemma MulCancelLt(a: int, b: int, t: int)
    requires t > 0
    requires a * t < b * t
    ensures a < b
  {
  }

  /** Round-half-up is well defined: only one number of tenths meets the
      rounding bounds, so any implementation meeting them agrees with
      `PercentTenths`. */
  lemma RoundingIsUnique(present: nat, total: nat, t: int)
    requires total > 0
    requires (2 * t - 1) * total <= 2000 * present < (2 * t + 1) * total
    ensures t == PercentTenths(present, total)
  {
    var r: int := PercentTenths(present, total);
    MulCancelLt(2 * t - 1, 2 * r + 1, total);
    MulCancelLt(2 * r - 1, 2 * t + 1, total);
  }

  /** With at most as many presences as sessions the percentage lies in
      [0.0, 100.0]; full attendance is exactly 100.0. */
  lemma PercentInRange(present: nat, total: nat)
    ensures present <= total ==> PercentTenths(present, total) <= 1000
    ensures total > 0 && present == total ==> PercentTenths(present, total) == 1000
  {
    var r: int := PercentTenths(present, total);
    if total > 0 && present <= total {
      assert 2000 * present <= 2000 * total;
      MulCancelLt(2 * r - 1, 2001, total);
      if present == total {
        RoundingIsUnique(present, total, 1000);
      }
    }
  }

  /** No presences means 0.0. */
  lemma NoPresenceIsZero(total: nat)
    ensures PercentTenths(0, total) == 0
  {
    if total > 0 {
      RoundingIsUnique(0, total, 0);
    }
  }
}
