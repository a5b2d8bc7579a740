/** The statistics endpoints (backend/app/routers/stats.py): per-region totals
    of one year, the detail of one region, and the national overview. Each
    endpoint is a pure function of a store snapshot. */
module Stats {
  import opened Seqs
  import opened Models
  import opened Http

  /** One row of `GET /stats/regions` (schemas.RegionStats). */
  datatype RegionStats = RegionStats(code_region: int, nom_region: string, total_boites: int, total_remb: int)

  /** The body of `GET /stats/region/{code}` for a known region. */
  datatype RegionDetail = RegionDetail(code_region: int, nom_region: string, annee: int, total_boites: int, total_remb: int)

  /** `GET /stats/region/{code}` answers either the detail or a body that
      carries an `error` key; both are ordinary (non-HTTP-error) replies. */
  datatype RegionStatsReply = Detail(detail: RegionDetail) | ErrorBody(error: string)

  /** The body of `GET /stats/overview`. */
  datatype Overview = Overview(annee: int, total_boites: int, total_remb: int, nb_regions: nat, nb_medicaments: nat)

  /** The default `annee` of every statistics endpoint. */
  const DEFAULT_ANNEE: int := 2023

  function FactBoites(f: Consommation): int { f.total_boites }
  function FactRemb(f: Consommation): int { f.total_remb }
  function RowBoites(r: RegionStats): int { r.total_boites }
  function RowRemb(r: RegionStats): int { r.total_remb }

  /** Facts of one year, in store order. */
  function OfYear(fs: seq<Consommation>, annee: int): (r: seq<Consommation>)
    ensures forall f :: f in r <==> f in fs && f.annee == annee
    ensures |r| <= |fs|
  {
    if fs == [] then []
    else (if fs[0].annee == annee then [fs[0]] else []) + OfYear(fs[1..], annee)
  }

  /** Facts joined to the region with primary key `id`. */
  function OfRegion(fs: seq<Consommation>, id: int): (r: seq<Consommation>)
    ensures forall f :: f in r <==> f in fs && f.region_id == Some(id)
  {
    if fs == [] then []
    else (if fs[0].region_id == Some(id) then [fs[0]] else []) + OfRegion(fs[1..], id)
  }

  function YearFacts(store: Store, annee: int): seq<Consommation>
  {
    OfYear(store.consommations, annee)
  }

  /** The facts that the join of `get_regions_stats` attaches to one region. */
  function RegionYearFacts(store: Store, annee: int, id: int): seq<Consommation>
  {
    OfRegion(YearFacts(store, annee), id)
  }

  /** The row of region `r`: its code and name with both sums over its facts. */
  function RowOf(r: Region, fs: seq<Consommation>): RegionStats
  {
    var mine := OfRegion(fs, r.id);
    RegionStats(r.code_region, r.nom_region, SumOf(mine, FactBoites), SumOf(mine, FactRemb))
  }

  /** Join, then GROUP BY region: one row per region that has at least one
      fact, in region order. With unique codes, grouping by
      (code_region, nom_region) and grouping by region are the same. */
  function Grouped(regions: seq<Region>, fs: seq<Consommation>): seq<RegionStats>
  {
    if regions == [] then []
    else (if OfRegion(fs, regions[0].id) != [] then [RowOf(regions[0], fs)] else []) + Grouped(regions[1..], fs)
  }

  /** The grouped rows are exactly the rows of the regions that have facts. */
  lemma {:induction false} GroupedRows(regions: seq<Region>, fs: seq<Consommation>)
    ensures forall row :: row in Grouped(regions, fs) <==>
      exists i :: 0 <= i < |regions| && OfRegion(fs, regions[i].id) != [] && row == RowOf(regions[i], fs)
  {
    if regions != [] {
      var tail := Grouped(regions[1..], fs);
      GroupedRows(regions[1..], fs);
      forall row ensures row in Grouped(regions, fs) <==>
        exists i :: 0 <= i < |regions| && OfRegion(fs, regions[i].id) != [] && row == RowOf(regions[i], fs)
      {
        if row in tail {
          var i :| 0 <= i < |regions[1..]| && OfRegion(fs, regions[1..][i].id) != [] && row == RowOf(regions[1..][i], fs);
          assert regions[1..][i] == regions[i + 1];
        }
        if exists i :: 1 <= i < |regions| && OfRegion(fs, regions[i].id) != [] && row == RowOf(regions[i], fs) {
          var i :| 1 <= i < |regions| && OfRegion(fs, regions[i].id) != [] && row == RowOf(regions[i], fs);
          assert regions[1..][i - 1] == regions[i];
          assert row in tail;
        }
      }
    }
  }

  /** With unique region codes, no two grouped rows share a code. */
  lemma {:induction false} GroupedCodesDistinct(regions: seq<Region>, fs: seq<Consommation>)
    requires RegionKeysUnique(regions)
    ensures forall k, l :: 0 <= k < l < |Grouped(regions, fs)| ==>
      Grouped(regions, fs)[k].code_region != Grouped(regions, fs)[l].code_region
  {
    if regions != [] {
      var head := if OfRegion(fs, regions[0].id) != [] then [RowOf(regions[0], fs)] else [];
      var tail := Grouped(regions[1..], fs);
      assert Grouped(regions, fs) == head + tail;
      assert RegionKeysUnique(regions[1..]) by {
        forall i, j | 0 <= i < j < |regions[1..]|
          ensures regions[1..][i].id != regions[1..][j].id && regions[1..][i].code_region != regions[1..][j].code_region
        {
          assert regions[1..][i] == regions[i + 1] && regions[1..][j] == regions[j + 1];
        }
      }
      GroupedCodesDistinct(regions[1..], fs);
      GroupedRows(regions[1..], fs);
      forall k | 0 <= k < |tail| ensures tail[k].code_region != regions[0].code_region {
        assert tail[k] in tail;
        var i :| 0 <= i < |regions[1..]| && OfRegion(fs, regions[1..][i].id) != [] && tail[k] == RowOf(regions[1..][i], fs);
        assert regions[1..][i] == regions[i + 1];
      }
    }
  }

  predicate SortedByRembDesc(rows: seq<RegionStats>)
  {
    forall i, j :: 0 <= i < j < |rows| ==> rows[i].total_remb >= rows[j].total_remb
  }

  /** A row no smaller than every row of a sorted list can go in front. */
  lemma ConsSorted(h: RegionStats, t: seq<RegionStats>)
    requires SortedByRembDesc(t)
    requires forall j :: 0 <= j < |t| ==> t[j].total_remb <= h.total_remb
    ensures SortedByRembDesc([h] + t)
  {
    var r := [h] + t;
    forall i, j | 0 <= i < j < |r| ensures r[i].total_remb >= r[j].total_remb {
      assert r[j] == t[j - 1];
      if i > 0 {
        assert r[i] == t[i - 1];
      }
    }
  }

  /** A bound on every row of `s` and on `x` bounds every row of a
      permutation of `x` and `s`. */
  lemma MultisetBound(t: seq<RegionStats>, x: RegionStats, s: seq<RegionStats>, v: int)
    requires multiset(t) == multiset{x} + multiset(s)
    requires x.total_remb <= v
    requires forall j :: 0 <= j < |s| ==> s[j].total_remb <= v
    ensures forall j :: 0 <= j < |t| ==> t[j].total_remb <= v
  {
    forall j | 0 <= j < |t| ensures t[j].total_remb <= v {
      assert t[j] in multiset(t);
      if t[j] != x {
        assert t[j] in multiset(s);
        var k :| 0 <= k < |s| && s[k] == t[j];
      }
    }
  }

  lemma SortedTail(s: seq<RegionStats>)
    requires SortedByRembDesc(s) && s != []
    ensures SortedByRembDesc(s[1..])
    ensures forall j :: 0 <= j < |s[1..]| ==> s[1..][j].total_remb <= s[0].total_remb
  {
    forall i, j | 0 <= i < j < |s[1..]| ensures s[1..][i].total_remb >= s[1..][j].total_remb {
      assert s[1..][i] == s[i + 1] && s[1..][j] == s[j + 1];
    }
    forall j | 0 <= j < |s[1..]| ensures s[1..][j].total_remb <= s[0].total_remb {
      assert s[1..][j] == s[j + 1];
    }
  }

  function InsertByRemb(x: RegionStats, s: seq<RegionStats>): (r: seq<RegionStats>)
    requires SortedByRembDesc(s)
    ensures SortedByRembDesc(r)
    ensures multiset(r) == multiset{x} + multiset(s)
  {
    if s == [] then [x]
    else
      SortedTail(s);
      if s[0].total_remb <= x.total_remb then
        assert s == [s[0]] + s[1..];
        ConsSorted(x, s);
        [x] + s
      else
        var t := InsertByRemb(x, s[1..]);
        MultisetBound(t, x, s[1..], s[0].total_remb);
        ConsSorted(s[0], t);
        assert s == [s[0]] + s[1..];
        [s[0]] + t
  }

  /** `ORDER BY total_remb DESC`. SQL leaves the order of ties open; this
      model fixes one (an insertion sort) and every property proved about it
      holds whatever order ties take. */
  function SortByRembDesc(s: seq<RegionStats>): (r: seq<RegionStats>)
    ensures SortedByRembDesc(r)
    ensures multiset(r) == multiset(s)
  {
    if s == [] then []
    else
      assert s == [s[0]] + s[1..];
      InsertByRemb(s[0], SortByRembDesc(s[1..]))
  }

  /** No two rows share an amount and larger amounts come first. */
  predicate StrictlyDesc(s: seq<RegionStats>)
  {
    forall i, j :: 0 <= i < j < |s| ==> s[i].total_remb > s[j].total_remb
  }

  /** A non-increasing permutation of a strictly decreasing list starts
      with the same row: its head is the largest amount, which only `s[0]`
      has. */
  lemma StrictHead(s: seq<RegionStats>, t: seq<RegionStats>)
    requires StrictlyDesc(s) && SortedByRembDesc(t) && multiset(t) == multiset(s)
    requires s != []
    ensures |t| == |s| && t[0] == s[0]
  {
    assert |t| == |multiset(t)| == |multiset(s)| == |s|;
    assert t[0] in multiset(s);
    var k :| 0 <= k < |s| && s[k] == t[0];
    assert s[0] in multiset(t);
    var l :| 0 <= l < |t| && t[l] == s[0];
    assert t[0].total_remb >= t[l].total_remb;
  }

  lemma StrictTail(s: seq<RegionStats>)
    requires StrictlyDesc(s) && s != []
    ensures StrictlyDesc(s[1..])
  {
    forall i, j | 0 <= i < j < |s[1..]| ensures s[1..][i].total_remb > s[1..][j].total_remb {
      assert s[1..][i] == s[i + 1] && s[1..][j] == s[j + 1];
    }
  }

  /** When no two rows share an amount, a list in strictly decreasing order
      is the only non-increasing permutation of its rows: whatever rule
      `ORDER BY total_remb DESC` follows for ties, it returns that list. */
  lemma {:induction false} StrictOrderIsDetermined(s: seq<RegionStats>, t: seq<RegionStats>)
    requires StrictlyDesc(s)
    requires SortedByRembDesc(t) && multiset(t) == multiset(s)
    ensures t == s
    decreases |s|
  {
    if s == [] {
      assert |t| == |multiset(t)| == |multiset(s)| == 0;
    } else {
      StrictHead(s, t);
      TailsPermutation(t, s);
      SortedTail(t);
      StrictTail(s);
      StrictOrderIsDetermined(s[1..], t[1..]);
      assert s == [s[0]] + s[1..] && t == [t[0]] + t[1..];
    }
  }

  /** So for such rows the model's sort returns the rows as given, and any
      tie rule would as well. */
  lemma StrictRowsSortToThemselves(s: seq<RegionStats>)
    requires StrictlyDesc(s)
    ensures SortByRembDesc(s) == s
  {
    StrictOrderIsDetermined(s, SortByRembDesc(s));
  }

  /** `get_regions_stats`: per-region totals of year `annee`, largest
      reimbursement first. */
  function GetRegionsStats(store: Store, annee: int): (rows: seq<RegionStats>)
    ensures SortedByRembDesc(rows)
    ensures multiset(rows) == multiset(Grouped(store.regions, YearFacts(store, annee)))
  {
    SortByRembDesc(Grouped(store.regions, YearFacts(store, annee)))
  }

  /** Each per-region row is the row of a region that has facts in `annee`:
      that region's code and name with the sums of exactly those facts; and
      each region with facts in `annee` has its row. */
  lemma RegionsStatsRows(store: Store, annee: int)
    ensures var rows := GetRegionsStats(store, annee);
      forall k :: 0 <= k < |rows| ==>
        exists i :: 0 <= i < |store.regions| && RegionYearFacts(store, annee, store.regions[i].id) != [] &&
          rows[k] == RowOf(store.regions[i], YearFacts(store, annee))
    ensures var rows := GetRegionsStats(store, annee);
      forall i :: 0 <= i < |store.regions| && RegionYearFacts(store, annee, store.regions[i].id) != [] ==>
        RowOf(store.regions[i], YearFacts(store, annee)) in rows
  {
    var fs := YearFacts(store, annee);
    var grouped := Grouped(store.regions, fs);
    var rows := GetRegionsStats(store, annee);
    GroupedRows(store.regions, fs);
    forall k | 0 <= k < |rows|
      ensures exists i :: 0 <= i < |store.regions| && RegionYearFacts(store, annee, store.regions[i].id) != [] && rows[k] == RowOf(store.regions[i], fs)
    {
      assert rows[k] in multiset(rows);
      assert rows[k] in grouped;
      var i :| 0 <= i < |store.regions| && OfRegion(fs, store.regions[i].id) != [] && rows[k] == RowOf(store.regions[i], fs);
      assert RegionYearFacts(store, annee, store.regions[i].id) == OfRegion(fs, store.regions[i].id);
    }
    forall i | 0 <= i < |store.regions| && RegionYearFacts(store, annee, store.regions[i].id) != []
      ensures RowOf(store.regions[i], fs) in rows
    {
      var row := RowOf(store.regions[i], fs);
      assert row in grouped;
      assert row in multiset(grouped);
    }
  }

  /** With unique region codes the list holds at most one row per region. */
  lemma RegionsStatsOneRowPerRegion(store: Store, annee: int)
    requires RegionKeysUnique(store.regions)
    ensures var rows := GetRegionsStats(store, annee);
      forall k, l :: 0 <= k < l < |rows| ==> rows[k].code_region != rows[l].code_region
  {
    var grouped := Grouped(store.regions, YearFacts(store, annee));
    GroupedCodesDistinct(store.regions, YearFacts(store, annee));
    PermutationKeepsCodesDistinct(grouped, GetRegionsStats(store, annee));
  }

  /** A permutation of rows with pairwise distinct codes still has them. */
  lemma PermutationKeepsCodesDistinct(a: seq<RegionStats>, b: seq<RegionStats>)
    requires multiset(a) == multiset(b)
    requires forall k, l :: 0 <= k < l < |a| ==> a[k].code_region != a[l].code_region
    ensures forall k, l :: 0 <= k < l < |b| ==> b[k].code_region != b[l].code_region
  {
    forall k, l | 0 <= k < l < |b| ensures b[k].code_region != b[l].code_region {
      assert b[k] in multiset(a) && b[l] in multiset(a);
      var k' :| 0 <= k' < |a| && a[k'] == b[k];
      var l' :| 0 <= l' < |a| && a[l'] == b[l];
      if b[k] == b[l] {
        DistinctCodesCountOnce(a, k');
        TwoOccurrences(b, k, l);
        assert false;
      }
    }
  }

  lemma TwoOccurrences(b: seq<RegionStats>, k: nat, l: nat)
    requires k < l < |b| && b[k] == b[l]
    ensures multiset(b)[b[k]] >= 2
  {
    assert b == b[..k] + [b[k]] + b[k + 1..l] + [b[l]] + b[l + 1..];
  }

  lemma {:induction false} DistinctCodesCountOnce(a: seq<RegionStats>, k: nat)
    requires k < |a|
    requires forall i, j :: 0 <= i < j < |a| ==> a[i].code_region != a[j].code_region
    ensures multiset(a)[a[k]] == 1
  {
    var x := a[k];
    assert a == a[..k] + [x] + a[k + 1..];
    assert x !in a[..k] && x !in a[k + 1..];
    assert multiset(a[..k])[x] == 0 && multiset(a[k + 1..])[x] == 0;
  }

  /** `get_region_stats`: the totals of the region with code `code_region`
      in year `annee`, or the `error` body when no region has that code. */
  function GetRegionStats(store: Store, code_region: int, annee: int): (r: RegionStatsReply)
    ensures r.ErrorBody? <==> forall i :: 0 <= i < |store.regions| ==> store.regions[i].code_region != code_region
    ensures r.ErrorBody? ==> r.error == REGION_NOT_FOUND
    ensures r.Detail? ==> r.detail.code_region == code_region && r.detail.annee == annee
    ensures r.Detail? ==>
      exists i :: 0 <= i < |store.regions| &&
        var mine := RegionYearFacts(store, annee, store.regions[i].id);
        && store.regions[i].code_region == code_region
        && r.detail.nom_region == store.regions[i].nom_region
        && r.detail.total_boites == SumOf(mine, FactBoites)
        && r.detail.total_remb == SumOf(mine, FactRemb)
  {
    match RegionWithCode(store.regions, code_region)
    case None => ErrorBody(REGION_NOT_FOUND)
    case Some(region) =>
      var mine := RegionYearFacts(store, annee, region.id);
      Detail(RegionDetail(region.code_region, region.nom_region, annee, SumOf(mine, FactBoites), SumOf(mine, FactRemb)))
  }

  /** The distinct non-null region ids among `fs`: `count(distinct region_id)`. */
  function RegionIdsOf(fs: seq<Consommation>): set<int>
  {
    set f | f in fs && f.region_id.Some? :: f.region_id.value
  }

  /** `get_overview`: national sums of year `annee`, the number of distinct
      regions with facts in that year, and the size of the drug catalogue
      (which does not depend on the year). */
  function GetOverview(store: Store, annee: int): (o: Overview)
    ensures o.annee == annee
    ensures o.nb_medicaments == |store.medicaments|
  {
    var fs := YearFacts(store, annee);
    Overview(annee, SumOf(fs, FactBoites), SumOf(fs, FactRemb), |RegionIdsOf(fs)|, |store.medicaments|)
  }

  // ---------------------------------------------------------------------------
  // Properties relating the three endpoints.

  /** A year without facts yields no rows and an all-zero overview. */
  lemma EmptyYear(store: Store, annee: int)
    requires YearFacts(store, annee) == []
    ensures GetRegionsStats(store, annee) == []
    ensures var o := GetOverview(store, annee);
      o.total_boites == 0 && o.total_remb == 0 && o.nb_regions == 0
  {
    GroupedOfNoFacts(store.regions);
    assert RegionIdsOf([]) == {};
  }

  lemma {:induction false} GroupedOfNoFacts(regions: seq<Region>)
    ensures Grouped(regions, []) == []
  {
    if regions != [] {
      GroupedOfNoFacts(regions[1..]);
    }
  }

  /** A known region without facts in `annee` gets a zero detail echoing the
      requested year, not the `error` body. */
  lemma IdleRegionHasZeroStats(store: Store, annee: int, i: nat)
    requires RegionKeysUnique(store.regions) && i < |store.regions|
    requires RegionYearFacts(store, annee, store.regions[i].id) == []
    ensures var r := store.regions[i];
      GetRegionStats(store, r.code_region, annee) == Detail(RegionDetail(r.code_region, r.nom_region, annee, 0, 0))
  {
    RegionWithCodeUnique(store.regions, i);
  }

  /** The detail of a region with facts carries the same totals as its row in
      the per-region list. */
  lemma RegionStatsAgreeWithRegionsStats(store: Store, annee: int, i: nat)
    requires RegionKeysUnique(store.regions) && i < |store.regions|
    requires RegionYearFacts(store, annee, store.regions[i].id) != []
    ensures var rows := GetRegionsStats(store, annee);
      var reply := GetRegionStats(store, store.regions[i].code_region, annee);
      reply.Detail? &&
      exists k :: 0 <= k < |rows|
        && rows[k].code_region == reply.detail.code_region
        && rows[k].nom_region == reply.detail.nom_region
        && rows[k].total_boites == reply.detail.total_boites
        && rows[k].total_remb == reply.detail.total_remb
  {
    var r := store.regions[i];
    var fs := YearFacts(store, annee);
    var rows := GetRegionsStats(store, annee);
    RegionsStatsRows(store, annee);
    var row := RowOf(r, fs);
    assert row in rows;
    var k :| 0 <= k < |rows| && rows[k] == row;
    RegionWithCodeUnique(store.regions, i);
    var mine := RegionYearFacts(store, annee, r.id);
    assert GetRegionStats(store, r.code_region, annee)
      == Detail(RegionDetail(r.code_region, r.nom_region, annee, SumOf(mine, FactBoites), SumOf(mine, FactRemb)));
  }

  lemma {:induction false} OfYearAppend(a: seq<Consommation>, b: seq<Consommation>, annee: int)
    ensures OfYear(a + b, annee) == OfYear(a, annee) + OfYear(b, annee)
  {
    if a == [] {
      assert a + b == b;
    } else {
      assert (a + b)[1..] == a[1..] + b;
      OfYearAppend(a[1..], b, annee);
    }
  }

  lemma {:induction false} OfYearNone(fs: seq<Consommation>, annee: int)
    requires forall f :: f in fs ==> f.annee != annee
    ensures OfYear(fs, annee) == []
  {
    if fs != [] {
      assert fs[0] in fs;
      OfYearNone(fs[1..], annee);
    }
  }

  /** Facts of other years contribute to no endpoint: appending them leaves
      all three answers unchanged. */
  lemma OtherYearsDoNotContribute(store: Store, annee: int, extra: seq<Consommation>, code_region: int)
    requires forall f :: f in extra ==> f.annee != annee
    ensures var grown := store.(consommations := store.consommations + extra);
      && GetRegionsStats(grown, annee) == GetRegionsStats(store, annee)
      && GetRegionStats(grown, code_region, annee) == GetRegionStats(store, code_region, annee)
      && GetOverview(grown, annee) == GetOverview(store, annee)
  {
    var grown := store.(consommations := store.consommations + extra);
    OfYearAppend(store.consommations, extra, annee);
    OfYearNone(extra, annee);
    assert YearFacts(store, annee) + [] == YearFacts(store, annee);
    assert YearFacts(grown, annee) == YearFacts(store, annee);
    assert grown.regions == store.regions && grown.medicaments == store.medicaments;
  }

  // --- national totals versus the per-region rows ----------------------------

  /** Sum of `g` over the facts of each region in turn. */
  function PerRegionSum(regions: seq<Region>, fs: seq<Consommation>, g: Consommation -> int): int
  {
    if regions == [] then 0 else SumOf(OfRegion(fs, regions[0].id), g) + PerRegionSum(regions[1..], fs, g)
  }

  /** How much fact `f` contributes to `PerRegionSum` over `regions`. */
  function Hits(regions: seq<Region>, f: Consommation, g: Consommation -> int): int
  {
    if regions == [] then 0
    else (if f.region_id == Some(regions[0].id) then g(f) else 0) + Hits(regions[1..], f, g)
  }

  lemma {:induction false} HitsNone(regions: seq<Region>, f: Consommation, g: Consommation -> int)
    requires forall i :: 0 <= i < |regions| ==> f.region_id != Some(regions[i].id)
    ensures Hits(regions, f, g) == 0
  {
    if regions != [] {
      HitsNone(regions[1..], f, g);
    }
  }

  /** With unique ids, a fact that references a region counts exactly once. */
  lemma {:induction false} HitsOnce(regions: seq<Region>, f: Consommation, g: Consommation -> int)
    requires RegionKeysUnique(regions)
    requires exists i :: 0 <= i < |regions| && f.region_id == Some(regions[i].id)
    ensures Hits(regions, f, g) == g(f)
  {
    if f.region_id == Some(regions[0].id) {
      HitsNone(regions[1..], f, g);
    } else {
      var i :| 0 <= i < |regions| && f.region_id == Some(regions[i].id);
      assert f.region_id == Some(regions[1..][i - 1].id);
      HitsOnce(regions[1..], f, g);
    }
  }

  lemma {:induction false} PerRegionSumEmpty(regions: seq<Region>, g: Consommation -> int)
    ensures PerRegionSum(regions, [], g) == 0
  {
    if regions != [] {
      PerRegionSumEmpty(regions[1..], g);
    }
  }

  lemma {:induction false} PerRegionSumCons(regions: seq<Region>, f: Consommation, rest: seq<Consommation>, g: Consommation -> int)
    ensures PerRegionSum(regions, [f] + rest, g) == Hits(regions, f, g) + PerRegionSum(regions, rest, g)
  {
    if regions != [] {
      var id := regions[0].id;
      assert ([f] + rest)[1..] == rest;
      if f.region_id == Some(id) {
        assert OfRegion([f] + rest, id) == [f] + OfRegion(rest, id);
        assert ([f] + OfRegion(rest, id))[1..] == OfRegion(rest, id);
      } else {
        assert OfRegion([f] + rest, id) == OfRegion(rest, id);
      }
      PerRegionSumCons(regions[1..], f, rest, g);
    }
  }

  /** When every fact references some region and region ids are unique, the
      facts are partitioned by region: summing region by region gives the
      plain sum. */
  lemma {:induction false} PartitionByRegion(regions: seq<Region>, fs: seq<Consommation>, g: Consommation -> int)
    requires RegionKeysUnique(regions)
    requires forall f :: f in fs ==> exists i :: 0 <= i < |regions| && f.region_id == Some(regions[i].id)
    ensures PerRegionSum(regions, fs, g) == SumOf(fs, g)
  {
    if fs == [] {
      PerRegionSumEmpty(regions, g);
    } else {
      assert fs == [fs[0]] + fs[1..];
      assert fs[0] in fs;
      PerRegionSumCons(regions, fs[0], fs[1..], g);
      HitsOnce(regions, fs[0], g);
      PartitionByRegion(regions, fs[1..], g);
    }
  }

  lemma {:induction false} GroupedSums(regions: seq<Region>, fs: seq<Consommation>)
    ensures SumOf(Grouped(regions, fs), RowBoites) == PerRegionSum(regions, fs, FactBoites)
    ensures SumOf(Grouped(regions, fs), RowRemb) == PerRegionSum(regions, fs, FactRemb)
  {
    if regions != [] {
      var head := if OfRegion(fs, regions[0].id) != [] then [RowOf(regions[0], fs)] else [];
      GroupedSums(regions[1..], fs);
      SumOfAppend(head, Grouped(regions[1..], fs), RowBoites);
      SumOfAppend(head, Grouped(regions[1..], fs), RowRemb);
    }
  }

  /** The ids of the regions whose facts are not empty. */
  function ActiveIds(regions: seq<Region>, fs: seq<Consommation>): (ids: set<int>)
    ensures forall x :: x in ids <==>
      (exists i :: 0 <= i < |regions| && regions[i].id == x) && OfRegion(fs, x) != []
  {
    if regions == [] then {}
    else
      var rest := ActiveIds(regions[1..], fs);
      assert forall x :: x in rest <==>
        (exists i :: 1 <= i < |regions| && regions[i].id == x) && OfRegion(fs, x) != [] by {
        forall x ensures x in rest <==>
          (exists i :: 1 <= i < |regions| && regions[i].id == x) && OfRegion(fs, x) != [] {
          if exists i :: 1 <= i < |regions| && regions[i].id == x {
            var i :| 1 <= i < |regions| && regions[i].id == x;
            assert regions[1..][i - 1].id == x;
          }
        }
      }
      (if OfRegion(fs, regions[0].id) != [] then {regions[0].id} else {}) + rest
  }

  lemma {:induction false} GroupedCount(regions: seq<Region>, fs: seq<Consommation>)
    requires RegionKeysUnique(regions)
    ensures |Grouped(regions, fs)| == |ActiveIds(regions, fs)|
  {
    if regions != [] {
      GroupedCount(regions[1..], fs);
      var rest := ActiveIds(regions[1..], fs);
      assert regions[0].id !in rest;
    }
  }

  /** When every fact references a region, the regions with facts are exactly
      the distinct region ids of the facts. */
  lemma ActiveIdsAreFactRegionIds(regions: seq<Region>, fs: seq<Consommation>)
    requires forall f :: f in fs ==> exists i :: 0 <= i < |regions| && f.region_id == Some(regions[i].id)
    ensures ActiveIds(regions, fs) == RegionIdsOf(fs)
  {
    forall x ensures x in ActiveIds(regions, fs) <==> x in RegionIdsOf(fs) {
      if x in ActiveIds(regions, fs) {
        var f := OfRegion(fs, x)[0];
        assert f in OfRegion(fs, x);
      }
      if x in RegionIdsOf(fs) {
        var f :| f in fs && f.region_id == Some(x);
        assert f in OfRegion(fs, x);
      }
    }
  }

  /** Aggregation consistency: when every fact of the year names a region,
      the national totals are the sums of the per-region rows, and the
      region count is the number of rows. */
  lemma OverviewMatchesRegionsStats(store: Store, annee: int)
    requires ValidStore(store)
    requires forall f :: f in YearFacts(store, annee) ==> f.region_id.Some?
    ensures var o := GetOverview(store, annee);
      var rows := GetRegionsStats(store, annee);
      && o.total_boites == SumOf(rows, RowBoites)
      && o.total_remb == SumOf(rows, RowRemb)
      && o.nb_regions == |rows|
  {
    var fs := YearFacts(store, annee);
    var grouped := Grouped(store.regions, fs);
    var rows := GetRegionsStats(store, annee);
    assert rows == SortByRembDesc(grouped);
    forall f | f in fs ensures exists i :: 0 <= i < |store.regions| && f.region_id == Some(store.regions[i].id) {
      var n :| 0 <= n < |store.consommations| && store.consommations[n] == f;
      assert ValidConsommation(f, RegionIds(store.regions), MedicamentIds(store.medicaments));
      var r :| r in store.regions && r.id == f.region_id.value;
    }
    SumOfPermutation(rows, grouped, RowBoites);
    SumOfPermutation(rows, grouped, RowRemb);
    GroupedSums(store.regions, fs);
    PartitionByRegion(store.regions, fs, FactBoites);
    PartitionByRegion(store.regions, fs, FactRemb);
    assert |rows| == |multiset(rows)| == |multiset(grouped)| == |grouped|;
    GroupedCount(store.regions, fs);
    ActiveIdsAreFactRegionIds(store.regions, fs);
  }
}
