/** The emit meter of the memory sampler: emits per minute between two samples. */
module EmitRate {
  const U64 := 0x1_0000_0000_0000_0000
  const EMIT_BUDGET_PER_MIN := 60

  /** `emit_rate_per_min`: the product is taken in 128 bits, the quotient cut to 64. */
  function EmitRatePerMin(prevTotal: nat, total: nat, elapsedMs: int): nat {
    if elapsedMs <= 0 || total < prevTotal then 0
    else (total - prevTotal) * 60_000 / elapsedMs % U64
  }

  predicate OverEmitBudget(rate: nat) {
    rate > EMIT_BUDGET_PER_MIN
  }

  lemma ProductsAscend(b: nat, x: int, y: int)
    requires x <= y
    ensures x * b <= y * b
  {
  }

  lemma Divides(a: nat, b: nat, q: nat)
    requires b > 0 && q * b <= a < (q + 1) * b
    ensures a / b == q
  {
    var x := a / b;
    assert x * b <= a < (x + 1) * b;
    if x < q {
      ProductsAscend(b, x + 1, q);
    } else if q < x {
      ProductsAscend(b, q + 1, x);
    }
  }

  /** The reported rate `q` is the true one, rounded down, exactly when the true one fits 64 bits;
      then the budget is reported over exactly when it is. */
  lemma RateExact(prevTotal: nat, total: nat, elapsedMs: int, q: nat)
    requires prevTotal <= total < U64 && elapsedMs > 0
    requires q * elapsedMs <= (total - prevTotal) * 60_000 < (q + 1) * elapsedMs
    ensures (total - prevTotal) * 60_000 < U64 * U64
    ensures EmitRatePerMin(prevTotal, total, elapsedMs) == q <==> q < U64
    ensures q < U64 ==> (OverEmitBudget(EmitRatePerMin(prevTotal, total, elapsedMs)) <==> q > EMIT_BUDGET_PER_MIN)
  {
    Divides((total - prevTotal) * 60_000, elapsedMs, q);
  }

  /** A stalled or backward clock and a restarted counter read as zero. */
  lemma NoProgressIsZero(prevTotal: nat, total: nat, elapsedMs: int)
    requires elapsedMs <= 0 || total <= prevTotal
    ensures EmitRatePerMin(prevTotal, total, elapsedMs) == 0
  {
    if elapsedMs > 0 && total == prevTotal {
      Divides(0, elapsedMs, 0);
    }
  }

  /** A rate that does not fit is cut, so a burst can read as none at all. */
  lemma BurstCanReadAsZero()
    ensures var total := 0x800_0000_0000_0000;
      total < U64 && total * 60_000 / 1 > EMIT_BUDGET_PER_MIN && EmitRatePerMin(0, total, 1) == 0
  {
  }
}
