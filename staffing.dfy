/** The staffing ratio `assigned.length / required` that both schedulers compare
    with 1. JavaScript divides in floating point, so a zero requirement gives NaN
    (nothing assigned) or +Infinity (someone assigned), and a negative one gives a
    number that is at most -0. The model keeps only the outcome of the comparison. */
module Staffing {

  /** How the ratio compares with 1; Unordered is NaN, for which <, === and > are all false. */
  datatype Comparison = Below | Equal | Above | Unordered

  function CompareRatioToOne(count: nat, required: int): (c: Comparison)
    ensures required > 0 ==> (c == Below <==> count < required)
    ensures required > 0 ==> (c == Equal <==> count == required)
    ensures required > 0 ==> (c == Above <==> count > required)
    ensures c == Unordered <==> required == 0 && count == 0
  {
    if required == 0 then (if count == 0 then Unordered else Above)
    else if required < 0 then Below
    else if count < required then Below
    else if count == required then Equal
    else Above
  }

  /** For a non-zero requirement the outcome is that of the exact quotient. */
  lemma RatioAgreesWithQuotient(count: nat, required: int)
    requires required != 0
    ensures var q := (count as real) / (required as real);
      && (CompareRatioToOne(count, required) == Below <==> q < 1.0)
      && (CompareRatioToOne(count, required) == Equal <==> q == 1.0)
      && (CompareRatioToOne(count, required) == Above <==> q > 1.0)
  {
    var a, r := count as real, required as real;
    if required > 0 {
      QuotientByPositive(a, r);
    } else {
      QuotientByNegative(a, r);
    }
  }

  /** Multiplying by a positive number keeps the sign. */
  lemma ProductSign(x: real, r: real)
    requires r > 0.0
    ensures x * r < 0.0 <==> x < 0.0
    ensures x * r == 0.0 <==> x == 0.0
  {
    if x < 0.0 {
      assert (-x) * r > 0.0;
    } else if x > 0.0 {
      assert x * r > 0.0;
    }
  }

  lemma QuotientByPositive(a: real, r: real)
    requires r > 0.0
    ensures a / r < 1.0 <==> a < r
    ensures a / r == 1.0 <==> a == r
  {
    var q := a / r;
    assert q * r == a;
    assert (q - 1.0) * r == a - r;
    ProductSign(q - 1.0, r);
  }

  lemma QuotientByNegative(a: real, r: real)
    requires a >= 0.0 && r < 0.0
    ensures a / r <= 0.0
  {
    var q := a / r;
    assert q * r == a;
    assert q * (-r) == -a;
    ProductSign(q, -r);
  }
}
