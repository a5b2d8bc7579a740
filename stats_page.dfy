/** The advanced statistics page (frontend/pages/_Stats.py): the share of
    each region in the national reimbursed amount. */
module StatsPage {
  import opened Seqs
  import opened Models
  import opened Stats
  import opened Frames

  /** One line of the detail table: name, boxes, amount in euros and
      percentage of the total (before the display rounding). The
      percentage is `None` when the total is zero, where pandas shows NaN
      or an infinity instead of a number. */
  datatype ShareRow = ShareRow(nom_region: string, total_boites: int, total_remb: real, pourcentage: Option<real>)

  /** `df['total_remb_float'] / total * 100`, element by element. */
  function Percentages(col: seq<real>, total: real): (p: seq<real>)
    requires total != 0.0
    ensures |p| == |col|
    ensures forall i :: 0 <= i < |col| ==> p[i] == col[i] / total * 100.0
  {
    if col == [] then []
    else [col[0] / total * 100.0] + Percentages(col[1..], total)
  }

  /** The percentages of a column add up to its sum divided by the total. */
  lemma {:induction false} PercentagesSum(col: seq<real>, total: real)
    requires total != 0.0
    ensures SumReal(Percentages(col, total)) == SumReal(col) / total * 100.0
  {
    if col != [] {
      var p := Percentages(col, total);
      assert p[1..] == Percentages(col[1..], total);
      PercentagesSum(col[1..], total);
    }
  }

  /** The detail table: absent when the per-region list is empty (the
      `if regions_stats:` guard), otherwise one line per row, in row order. */
  function ShareTable(rows: seq<RegionStats>): (t: Option<seq<ShareRow>>)
    ensures t.None? <==> rows == []
    ensures t.Some? ==> |t.value| == |rows|
    ensures t.Some? ==> forall i :: 0 <= i < |rows| ==>
      && t.value[i].nom_region == rows[i].nom_region
      && t.value[i].total_boites == rows[i].total_boites
      && t.value[i].total_remb == ToEuros(rows[i].total_remb)
      && (t.value[i].pourcentage.Some? <==> SumReal(RembColumn(rows)) != 0.0)
      && (t.value[i].pourcentage.Some? ==>
            t.value[i].pourcentage.value == t.value[i].total_remb / SumReal(RembColumn(rows)) * 100.0)
  {
    if rows == [] then None
    else
      var col := RembColumn(rows);
      var total := SumReal(col);
      Some(seq(|rows|, i requires 0 <= i < |rows| =>
        ShareRow(rows[i].nom_region, rows[i].total_boites, col[i],
                 if total == 0.0 then None else Some(col[i] / total * 100.0))))
  }

  /** Every line has a percentage exactly when the exact national amount of
      the rows is not zero. */
  lemma ShareTableDefined(rows: seq<RegionStats>)
    ensures forall i :: 0 <= i < |rows| ==>
      (ShareTable(rows).value[i].pourcentage.Some? <==> SumOf(rows, RowRemb) != 0)
  {
    RembColumnSum(rows);
  }

  /** The percentage column of a table whose percentages are all defined. */
  function Pourcentages(t: seq<ShareRow>): (p: seq<real>)
    requires forall i :: 0 <= i < |t| ==> t[i].pourcentage.Some?
    ensures |p| == |t|
    ensures forall i :: 0 <= i < |t| ==> p[i] == t[i].pourcentage.value
  {
    seq(|t|, i requires 0 <= i < |t| => t[i].pourcentage.value)
  }

  lemma SelfRatio(x: real)
    requires x != 0.0
    ensures x / x * 100.0 == 100.0
  {
  }

  /** Before rounding, the percentages add up to 100. */
  lemma SharesSumTo100(rows: seq<RegionStats>)
    requires SumReal(RembColumn(rows)) != 0.0
    ensures ShareTable(rows).Some?
    ensures forall i :: 0 <= i < |rows| ==> ShareTable(rows).value[i].pourcentage.Some?
    ensures SumReal(Pourcentages(ShareTable(rows).value)) == 100.0
  {
    var col := RembColumn(rows);
    var total := SumReal(col);
    var p := Percentages(col, total);
    assert Pourcentages(ShareTable(rows).value) == p;
    PercentagesSum(col, total);
    SelfRatio(total);
  }

  /** A part of a positive total has a share between 0 and 100. */
  lemma ShareBounds(c: real, total: real)
    requires 0.0 <= c <= total && total > 0.0
    ensures 0.0 <= c / total * 100.0 <= 100.0
  {
    var q := c / total;
    assert q * total == c;
    assert (1.0 - q) * total == total - c;
  }

  /** With non-negative amounts every percentage lies between 0 and 100. */
  lemma SharesWithinRange(rows: seq<RegionStats>)
    requires SumReal(RembColumn(rows)) != 0.0
    requires forall i :: 0 <= i < |rows| ==> rows[i].total_remb >= 0
    ensures forall i :: 0 <= i < |rows| ==>
      ShareTable(rows).value[i].pourcentage.Some? && 0.0 <= ShareTable(rows).value[i].pourcentage.value <= 100.0
  {
    var col := RembColumn(rows);
    var total := SumReal(col);
    assert forall i :: 0 <= i < |col| ==> 0.0 <= col[i] by {
      forall i | 0 <= i < |col| ensures 0.0 <= col[i] {
        ToEurosMonotone(0, rows[i].total_remb);
      }
    }
    SumRealNonNegative(col);
    var t := ShareTable(rows).value;
    forall i | 0 <= i < |rows| ensures t[i].pourcentage.Some? && 0.0 <= t[i].pourcentage.value <= 100.0 {
      SumRealDominates(col, i);
      ShareBounds(col[i], total);
    }
  }

  /** When every fact of the year belongs to a region, the total the table
      divides by is the national amount the overview at the top of the
      page shows. */
  lemma TableTotalIsOverviewTotal(store: Store, annee: int)
    requires ValidStore(store)
    requires forall f :: f in YearFacts(store, annee) ==> f.region_id.Some?
    ensures SumReal(RembColumn(GetRegionsStats(store, annee))) == ToEuros(GetOverview(store, annee).total_remb)
  {
    RembColumnSum(GetRegionsStats(store, annee));
    OverviewMatchesRegionsStats(store, annee);
  }
}
