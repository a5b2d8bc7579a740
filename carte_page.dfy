/** The map page (frontend/pages/_Carte.py): ISO 3166-2 codes of the
    regions, the metric that colours the map, and the highest, lowest and
    mean reimbursed amounts. */
module CartePage {
  import opened Seqs
  import opened Stats
  import opened Frames

  /** `code_iso_regions`: INSEE codes of the thirteen metropolitan regions
      and their ISO 3166-2 subdivision codes. */
  const CODE_ISO_REGIONS: map<int, string> := map[
    11 := "FR-IDF", 24 := "FR-CVL", 27 := "FR-BFC", 28 := "FR-NOR",
    32 := "FR-HDF", 44 := "FR-GES", 52 := "FR-PDL", 53 := "FR-BRE",
    75 := "FR-NAQ", 76 := "FR-OCC", 84 := "FR-ARA", 93 := "FR-PAC", 94 := "FR-COR"]

  /** The region code of each ISO code, read back from the map. */
  const ISO_CODE_REGIONS: map<string, int> := map[
    "FR-IDF" := 11, "FR-CVL" := 24, "FR-BFC" := 27, "FR-NOR" := 28,
    "FR-HDF" := 32, "FR-GES" := 44, "FR-PDL" := 52, "FR-BRE" := 53,
    "FR-NAQ" := 75, "FR-OCC" := 76, "FR-ARA" := 84, "FR-PAC" := 93, "FR-COR" := 94]

  /** Every ISO code reads back to its region code. */
  lemma CodeIsoInverse(code: int)
    requires code in CODE_ISO_REGIONS
    ensures CODE_ISO_REGIONS[code] in ISO_CODE_REGIONS
    ensures ISO_CODE_REGIONS[CODE_ISO_REGIONS[code]] == code
  {
  }

  /** Thirteen codes, each with its own ISO code. */
  lemma CodeIsoInjective(a: int, b: int)
    requires a in CODE_ISO_REGIONS && b in CODE_ISO_REGIONS && a != b
    ensures CODE_ISO_REGIONS[a] != CODE_ISO_REGIONS[b]
  {
    CodeIsoInverse(a);
    CodeIsoInverse(b);
  }

  /** `Series.map(dict)` on one code: codes outside the map become missing. */
  function CodeIso(code: int): (iso: Option<string>)
    ensures iso.Some? <==> code in CODE_ISO_REGIONS
    ensures iso.Some? ==> iso.value == CODE_ISO_REGIONS[code]
  {
    if code in CODE_ISO_REGIONS then Some(CODE_ISO_REGIONS[code]) else None
  }

  /** `df['code_iso']`: one entry per row, in row order. */
  function IsoColumn(rows: seq<RegionStats>): (col: seq<Option<string>>)
    ensures |col| == |rows|
    ensures forall i :: 0 <= i < |rows| ==> col[i] == CodeIso(rows[i].code_region)
  {
    seq(|rows|, i requires 0 <= i < |rows| => CodeIso(rows[i].code_region))
  }

  /** With distinct region codes, no two rows share an ISO code, so each
      region is drawn at most once. */
  lemma IsoColumnDistinct(rows: seq<RegionStats>)
    requires forall k, l :: 0 <= k < l < |rows| ==> rows[k].code_region != rows[l].code_region
    ensures var col := IsoColumn(rows);
      forall k, l :: 0 <= k < l < |rows| && col[k].Some? && col[l].Some? ==> col[k] != col[l]
  {
    var col := IsoColumn(rows);
    forall k, l | 0 <= k < l < |rows| && col[k].Some? && col[l].Some? ensures col[k] != col[l] {
      CodeIsoInjective(rows[k].code_region, rows[l].code_region);
    }
  }

  datatype Metric = MontantRembourse | NombreDeBoites

  /** The map's colour column and hover columns for the chosen metric. */
  datatype MapColumns = MapColumns(color: seq<real>, hover: seq<string>)

  /** The map columns: the colour follows the metric and the hover data is the
      same for both. */
  function ColumnsFor(metric: Metric, rows: seq<RegionStats>): (c: MapColumns)
    ensures |c.color| == |rows|
    ensures metric == MontantRembourse ==> c.color == RembColumn(rows)
    ensures metric == NombreDeBoites ==> forall i :: 0 <= i < |rows| ==> c.color[i] == rows[i].total_boites as real
    ensures c.hover == ["total_boites", "total_remb_float"]
  {
    var hover := ["total_boites", "total_remb_float"];
    match metric
    case MontantRembourse => MapColumns(RembColumn(rows), hover)
    case NombreDeBoites => MapColumns(seq(|rows|, i requires 0 <= i < |rows| => rows[i].total_boites as real), hover)
  }

  /** `Series.idxmax()`: the first position holding the largest value. */
  function ArgMax(col: seq<real>): (k: nat)
    requires |col| > 0
    ensures k < |col|
    ensures forall j :: 0 <= j < |col| ==> col[j] <= col[k]
    ensures forall j :: 0 <= j < k ==> col[j] < col[k]
  {
    if |col| == 1 then 0
    else
      var k := ArgMax(col[1..]);
      if col[0] >= col[1..][k] then 0 else k + 1
  }

  /** `Series.idxmin()`: the first position holding the smallest value. */
  function ArgMin(col: seq<real>): (k: nat)
    requires |col| > 0
    ensures k < |col|
    ensures forall j :: 0 <= j < |col| ==> col[k] <= col[j]
    ensures forall j :: 0 <= j < k ==> col[k] < col[j]
  {
    if |col| == 1 then 0
    else
      var k := ArgMin(col[1..]);
      if col[0] <= col[1..][k] then 0 else k + 1
  }

  /** The three figures under the map. */
  datatype CarteStats = CarteStats(highest: RegionStats, lowest: RegionStats, moyenne: real)

  /** The highest, lowest and mean figures, computed only when there are
      rows. */
  function Statistics(rows: seq<RegionStats>): (s: Option<CarteStats>)
    ensures s.None? <==> rows == []
    ensures s.Some? ==> s.value.highest in rows && s.value.lowest in rows
    ensures s.Some? ==> forall r :: r in rows ==>
      s.value.lowest.total_remb <= r.total_remb <= s.value.highest.total_remb
    ensures s.Some? ==> s.value.moyenne == Mean(RembColumn(rows))
  {
    if rows == [] then None
    else
      var col := RembColumn(rows);
      var hi := ArgMax(col);
      var lo := ArgMin(col);
      assert forall r :: r in rows ==> rows[lo].total_remb <= r.total_remb <= rows[hi].total_remb by {
        forall r | r in rows ensures rows[lo].total_remb <= r.total_remb <= rows[hi].total_remb {
          var j :| 0 <= j < |rows| && rows[j] == r;
          ToEurosMonotone(rows[lo].total_remb, r.total_remb);
          ToEurosMonotone(r.total_remb, rows[hi].total_remb);
        }
      }
      Some(CarteStats(rows[hi], rows[lo], Mean(col)))
  }

  /** The highest region is the first row, in row order, with the largest
      amount, and the lowest the first with the smallest. */
  lemma StatisticsPickFirst(rows: seq<RegionStats>)
    requires rows != []
    ensures var s := Statistics(rows).value;
      && (exists k :: 0 <= k < |rows| && rows[k] == s.highest &&
            forall j :: 0 <= j < k ==> rows[j].total_remb < s.highest.total_remb)
      && (exists k :: 0 <= k < |rows| && rows[k] == s.lowest &&
            forall j :: 0 <= j < k ==> s.lowest.total_remb < rows[j].total_remb)
  {
    var col := RembColumn(rows);
    var hi := ArgMax(col);
    var lo := ArgMin(col);
    forall j | 0 <= j < hi ensures rows[j].total_remb < rows[hi].total_remb {
      ToEurosMonotone(rows[hi].total_remb, rows[j].total_remb);
    }
    forall j | 0 <= j < lo ensures rows[lo].total_remb < rows[j].total_remb {
      ToEurosMonotone(rows[j].total_remb, rows[lo].total_remb);
    }
  }

  /** The mean lies between the lowest and the highest amount. */
  lemma LowestMeanHighest(rows: seq<RegionStats>)
    requires rows != []
    ensures var s := Statistics(rows).value;
      ToEuros(s.lowest.total_remb) <= s.moyenne <= ToEuros(s.highest.total_remb)
  {
    var s := Statistics(rows).value;
    var col := RembColumn(rows);
    forall i | 0 <= i < |col| ensures ToEuros(s.lowest.total_remb) <= col[i] <= ToEuros(s.highest.total_remb) {
      assert rows[i] in rows;
      ToEurosMonotone(s.lowest.total_remb, rows[i].total_remb);
      ToEurosMonotone(rows[i].total_remb, s.highest.total_remb);
    }
    MeanBetween(col, ToEuros(s.lowest.total_remb), ToEuros(s.highest.total_remb));
  }
}
