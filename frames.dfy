/** The pandas column arithmetic the dashboard pages apply to the rows of
    `GET /stats/regions`: the float reimbursement column, column sums and
    the arithmetic mean. Floats are modelled as exact reals. */
module Frames {
  import opened Seqs
  import opened Stats

  /** `float(total_remb)`: a NUMERIC amount held in cents, read as euros. */
  function ToEuros(cents: int): real
  {
    cents as real / 100.0
  }

  lemma ToEurosMonotone(a: int, b: int)
    ensures a <= b <==> ToEuros(a) <= ToEuros(b)
    ensures a == b <==> ToEuros(a) == ToEuros(b)
  {
  }

  /** `df['total_remb'].astype(float)`: one value per row, in row order. */
  function RembColumn(rows: seq<RegionStats>): (col: seq<real>)
    ensures |col| == |rows|
    ensures forall i :: 0 <= i < |rows| ==> col[i] == ToEuros(rows[i].total_remb)
  {
    seq(|rows|, i requires 0 <= i < |rows| => ToEuros(rows[i].total_remb))
  }

  /** `Series.sum()`. */
  function SumReal(s: seq<real>): real
  {
    if s == [] then 0.0 else s[0] + SumReal(s[1..])
  }

  /** The float total of the column is the exact integer total, in euros. */
  lemma {:induction false} RembColumnSum(rows: seq<RegionStats>)
    ensures SumReal(RembColumn(rows)) == ToEuros(SumOf(rows, RowRemb))
  {
    if rows != [] {
      assert RembColumn(rows)[1..] == RembColumn(rows[1..]);
      RembColumnSum(rows[1..]);
    }
  }

  /** Every element lies between `lo` and `hi`, so the sum lies between
      `|s| * lo` and `|s| * hi`. */
  lemma {:induction false} SumRealBounds(s: seq<real>, lo: real, hi: real)
    requires forall i :: 0 <= i < |s| ==> lo <= s[i] <= hi
    ensures |s| as real * lo <= SumReal(s) <= |s| as real * hi
  {
    if s != [] {
      assert forall i :: 0 <= i < |s[1..]| ==> s[1..][i] == s[i + 1];
      SumRealBounds(s[1..], lo, hi);
      assert |s| as real * lo == lo + |s[1..]| as real * lo;
      assert |s| as real * hi == hi + |s[1..]| as real * hi;
    }
  }

  lemma {:induction false} SumRealNonNegative(s: seq<real>)
    requires forall i :: 0 <= i < |s| ==> 0.0 <= s[i]
    ensures 0.0 <= SumReal(s)
  {
    if s != [] {
      assert forall i :: 0 <= i < |s[1..]| ==> s[1..][i] == s[i + 1];
      SumRealNonNegative(s[1..]);
    }
  }

  /** A sum of non-negative values is at least each of them. */
  lemma {:induction false} SumRealDominates(s: seq<real>, k: nat)
    requires k < |s|
    requires forall i :: 0 <= i < |s| ==> 0.0 <= s[i]
    ensures s[k] <= SumReal(s)
  {
    SumRealNonNegative(s[1..]);
    if k > 0 {
      SumRealDominates(s[1..], k - 1);
    }
  }

  /** `Series.mean()` of a non-empty column. Every page computes it only
      after checking that the rows are non-empty. */
  function Mean(s: seq<real>): real
    requires |s| > 0
  {
    SumReal(s) / |s| as real
  }

  /** The mean lies between any lower and any upper bound of the values. */
  lemma MeanBetween(s: seq<real>, lo: real, hi: real)
    requires |s| > 0
    requires forall i :: 0 <= i < |s| ==> lo <= s[i] <= hi
    ensures lo <= Mean(s) <= hi
  {
    var n := |s| as real;
    SumRealBounds(s, lo, hi);
    assert n * lo <= SumReal(s) <= n * hi;
    assert (n * lo) / n == lo && (n * hi) / n == hi;
  }

  /** The national mean of the per-region rows is the per-region average of
      their exact total. */
  lemma MeanOfRembColumn(rows: seq<RegionStats>)
    requires |rows| > 0
    ensures Mean(RembColumn(rows)) == ToEuros(SumOf(rows, RowRemb)) / |rows| as real
  {
    RembColumnSum(rows);
  }
}
