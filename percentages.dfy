/**
 * The percentage a conversion task reports after each written frame:
 * the decoder's frame position divided by the reported frame count,
 * times 100, truncated toward zero. Exact rationals stand in for `double`.
 */
module Percentages {

  import opened Scaling

  /**
   * The reported progress for decoder position `position` of `total`
   * frames: the quotient times 100, truncated toward zero.
   */
  function Percent(position: int, total: int): (p: int)
    requires total != 0
  {
    Trunc(position as real / total as real * 100.0)
  }

  /** For a positive frame count the percentage is an integer quotient. */
  lemma PercentQuotient(position: int, total: int)
    requires 0 <= position && 0 < total
    ensures Percent(position, total) == position * 100 / total
  {
    assert position as real / total as real * 100.0 == (position * 100) as real / total as real by {
      CastMul(position, 100);
      MulDiv(100.0, position as real, total as real);
    }
    TruncQuotient(position * 100, total);
  }

  lemma DivMonotone(x: int, y: int, d: int)
    requires 0 <= x <= y && 0 < d
    ensures x / d <= y / d
  {
    var qx, qy := x / d, y / d;
    assert qx * d <= x;
    assert y < qy * d + d;
    assert qx * d < (qy + 1) * d;
    MulCancel(qx, qy + 1, d);
  }

  lemma MulCancel(a: int, b: int, d: int)
    requires 0 < d && a * d < b * d
    ensures a < b
  {}

  /** While the position has not passed the frame count, the value is a percentage. */
  lemma PercentRange(position: int, total: int)
    requires 0 <= position <= total && 0 < total
    ensures 0 <= Percent(position, total) <= 100
  {
    PercentMonotone(0, position, total);
    PercentMonotone(position, total, total);
    PercentComplete(total);
  }

  /** A later frame position never reports a smaller percentage. */
  lemma PercentMonotone(earlier: int, later: int, total: int)
    requires 0 <= earlier <= later && 0 < total
    ensures Percent(earlier, total) <= Percent(later, total)
  {
    PercentQuotient(earlier, total);
    PercentQuotient(later, total);
    DivMonotone(earlier * 100, later * 100, total);
  }

  /** The position of the last of `total` frames reports exactly 100. */
  lemma PercentComplete(total: int)
    requires 0 < total
    ensures Percent(total, total) == 100
  {
    assert total as real / total as real == 1.0;
  }

  /** With a frame count of 100 the percentage is the frame position itself. */
  lemma PercentOfHundred(position: int)
    requires 0 <= position
    ensures Percent(position, 100) == position
  {
    PercentQuotient(position, 100);
  }
}
